# FastBTC: a verified model of the rBTC-to-BTC bridge

FastBTC pays rBTC deposits on RSK out in Bitcoin. A bridge contract keeps the deposits and moves each of them
from NEW to SENDING to MINED, or back to its owner (REFUNDED, RECLAIMED). Federator nodes replay the contract's
log into a database; one of them, the initiator, collects their signatures for the status updates and for the
Bitcoin transaction that pays a batch of deposits. This project models these parts in Dafny and proves what they
are meant to guarantee.

## How the model is built

- **The contract** (`BridgeState`, `BridgeCalls`, `BridgeInvariants`, `BridgeContract`, `BridgeLog`). `BridgeState`
  has the storage, the event log and the atomic steps. `BridgeCalls.Exec` is the meaning of a transaction: the
  receiver of a payment runs any list of further calls, to any depth, and then accepts the payment or reverts.
  The class `FastBTCBridge` is the contract with fields updated in place and the loops of the source; each method
  is proved against `Exec`. Solvency is part of the precondition of `Receive`, the only place where foreign code
  gets control. `CallConditions` says exactly when each call goes through, in terms of signatures and of the log, and
  who is behind every change of a status (`EveryChangeAuthorised`).
- **The scanner** (`Events`, `NodeDatabase`, `Scanner`, `ScannerRefinement`). A node's tables are the fold `Replay`
  of the log. `ReplayRefines` ties them to the contract's own state.
- **Payouts and validation** (`ByteCount`, `CoinSelection`, `Payout`, `TransferBatches`, `Validator`). `ReadExactly`
  makes reading a payout the inverse of building it.
- **Signatures and batches** (`AccessControl`, `BitcoinSignatures`, `SignatureProgress`, `RskSignatures`, `BatchService`,
  `NodeIteration`, `NodeProgress`, `StageConditions`).
- **The whole protocol** (`BridgeTimeline`, `NodeAgreement`, `SignedPayouts`, `SigningConditions`, `ProtocolSystem`, `Protocol`,
  `ProtocolProgress`). A run interleaves transactions, mined blocks, scans of any node up to the latest confirmed block,
  local status writes, signing responses to arbitrary messages, batches stored, purged and rebuilt by any node, and
  initiators' updates with arbitrary responses. The safety theorems are `NoDoublePayout`, `CheckedStaysCommitted` and
  `SignedStaysCommitted`; `RespondsExactly` says when a node signs, and `CommittedIsSigned` that it gets to.
- **Self-contained algorithms**: the descriptor checksum (`Polymod`, `Descriptor`, `DescriptorExample`; BIP 380, section
  'Checksum'), address shapes (`AddressValidator`; BIP 173, section 'Bech32') and the choice of the initiator (`NodeVotes`,
  `Election`).

Hashes and signatures are terms: the hash of a byte string is `Keccak(bytes)`, the hash of a Bitcoin transaction
is `HashOf(tx)` (with other bit strings in `OtherBits`), a signature is its signer and message. What is taken for
granted is collision freedom and unforgeability; that the packed preimage of an id is injective is proved.

## Where the code does not meet the plain statement

- The log can be replayed exactly when every committed batch has at most 255 ids and no Bitcoin hash is committed
  twice (`ReplayRefines`): the event carries the batch size cut to eight bits, and hashes are unique in the
  nodes' table. Node batches have at most 40 transfers.
- A payout is read back exactly when it has at least one transfer, nonces below 255 and no repeated pair
  (`PayoutRoundTrip`).
- The step that adds this node's own RSK signature does not look whether the node has already signed. The list
  stays sound exactly unless the signers in the batch and in the matching offers are one short of the number
  required and the node is among them (`OwnSignatureOnce`; `OwnSignatureTwice` is an input where it is).
- `isValidSignatureAndAddress` only logs an address that is not a federator's, so an outsider's signature is kept
  (`OutsiderTaken`). The contract accepts a complete list exactly when all signers are federators
  (`CompleteBatchAccepted`). A list that this node completes with its own signature has been validated and is
  accepted, if the node is a federator that had not signed yet (`OwnSendingCompletes`, `OwnMinedCompletes`).
- `validatePsbt` compares addresses and nonces, never amounts (`AmountsIgnored`, `WrongAmountAccepted`): "pays a
  deposit" in the theorems means an output to its address with its nonce.
- The initiator adds its own Bitcoin signature without the commitment check. It does so only when a response was
  gathered, and on top of somebody else's signature on the same transaction, with one exception: when all the
  responses are empty, it signs alone (`SignsAloneExactly`, `EmptyResponseSignsAlone`), on whatever payout it has
  built. A node running this code never sends an empty response (`HonestNotLone`). The theorems about whole runs name
  the transactions signed alone (`AloneExactly`) and hold for all others, and for these too once a responder has
  signed (`CheckedStaysCommitted` needs a responder's signature and nothing else). For the rest they fail: two
  updates with empty responses continue any run to a double payout (`DoublePayoutContinues`, `DoublePayoutReachable`).
- `combine` takes the number of signatures required from each response, and the handler of responses never looks at
  the transaction in them. A single key with a lower number makes the call fail or the batch complete too early
  (`LowerRequired`), one on another transaction makes it fail (`SignaturesAccumulate`, `CombineSingles`, with the
  exact condition), and a response with more than one key can leave more signers than required
  (`TwoKeysTooMany`). `CombineExactly` says for any transactions what is merged and when it throws.
- The selection in `addBitcoinSignatures` compares the number of keys seen, those there before included, with the number
  missing. So a call can stop early: with one of three signatures there, it takes only one of two new ones
  (`SignaturesGained` has the exact number).
- `validateMatchesDto` does not compare the signers listed in the initial transaction. So a response by a node that
  runs this code can carry two keys (`ListedSignersNotCompared`).
- After sending an update a node writes SENDING or MINED itself, whether or not the transaction went through. A node
  that is ahead of the contract asks for Bitcoin signatures too early (`AskedTooEarly`) and is put back by its
  scanner (`ScanPutsBack`); a scan moves a batch forward exactly if the node is not ahead (`ScanIsLaterExactly`).
  The hashes in its rows say exactly whether the transfers are committed (`CommittedExactly`). Signing is safe in
  any case, because the validation before it looks at the hashes (`SigningSafe`).

## Model

| member | source | states |
|---|---|---|
| Protocol.NoDoublePayout | packages/fastbtc-node/src/core/transfers.ts:858-875 | in every run of contract, nodes, messages, stored batches and signatures, no two outputs of Bitcoin transactions that carry any signature are for the same deposit, neither in two transactions nor in one, whatever prefixes of the log the signers had scanned; unless one of the transactions was signed alone by an initiator and by no responder after validation |
| Protocol.CheckedStaysCommitted | packages/fastbtc-node/src/core/transfers.ts:858-875 | once a node has given a validated signature, each deposit that the transaction pays is SENDING or MINED in every later contract state, the middle of calls included: never refunded, never reclaimed; without any exception |
| Protocol.SignedStaysCommitted | packages/fastbtc-node/src/core/transfers.ts:866-874 | the same as CheckedStaysCommitted once any signature exists, the initiator's own included, unless the transaction was signed alone and by no responder |
| Protocol.SignedPaysBatch | packages/fastbtc-node/src/core/transfers.ts:1052-1077 | in every run a transaction with any signature, the initiator's own included, is the one committed for a batch, that batch is unique, and its deposits are paid by one output each and nothing else is; unless it was signed alone and by no responder |
| Protocol.AloneExactly | packages/fastbtc-node/src/core/transfers.ts:513-521 | the transactions signed alone are exactly those of updates in which the batch had no signature and the initiator had responses, all of them empty |
| Protocol.HonestNotLone | packages/fastbtc-node/src/btc/multisig.ts:509-533 | a response by a node running this code carries its key, so one such response rules that case out |
| Protocol.LoneSignature | packages/fastbtc-node/src/core/transfers.ts:513-542 | in any system, for any transfers and payout that an initiator has just built, committed or not, one empty response makes it sign alone |
| Protocol.DoublePayoutContinues | packages/fastbtc-node/src/core/transfers.ts:513-542 | every run can be continued to a double payout by two such updates: two signed transactions with the same payments from different inputs |
| Protocol.DoublePayoutReachable | packages/fastbtc-node/src/core/transfers.ts:513-542 | in particular a double payout is reachable from every initial system with a node |
| Protocol.RunInv | packages/fastbtc-node/src/core/node.ts:131-386 | every system of every run satisfies the joint invariant: contract history block by block, nodes that follow it, stored batches whose transactions agree and whose listed signers have signed, signatures that pay committed batches |
| ProtocolProgress.RespondsExactly | packages/fastbtc-node/src/core/transfers.ts:858-875 | in every run a node can sign a Bitcoin transaction for a batch if and only if the contract has the batch committed under its hash, each transfer is SENDING at the latest block and was there rskRequiredConfirmations blocks before, the node has them all as SENDING or all as MINED, the update signatures are valid, and the transaction is a payout of exactly these transfers |
| ProtocolProgress.CommittedIsSigned | packages/fastbtc-node/src/core/node.ts:282-292 | every committed batch gets signed: from any run in which a payout of SENDING transfers is committed and the log can be replayed, mining the confirmations, one scan and one message lead to the signature of any node that has not written statuses ahead |
| ProtocolProgress.ScanReachesConfirmed | packages/fastbtc-node/src/rsk/scanner.ts:66-71 | a scan brings a node to the latest block less the confirmations, or fails and leaves everything as it is |
| ProtocolProgress.TransactRuns | packages/fastbtc-contracts/contracts/FastBTCBridge.sol:326-356 | a transaction has the effect of its call on the state being built and on no earlier block |
| ProtocolSystem.StepInv | packages/fastbtc-node/src/core/node.ts:494-552 | each single action (transaction, block, scan, local status write, signing response, storing a validated batch, purge, rebuilding, an initiator's update) keeps that invariant |
| ProtocolSystem.UpdateInv | packages/fastbtc-node/src/core/node.ts:335-386 | an initiator's update of a stored or fresh batch, with any responses whose listed keys have signed, keeps the invariant; it is stored with the new signatures |
| ProtocolSystem.ValidIsGenuine | packages/fastbtc-node/src/core/transfers.ts:964-984 | a batch that passes validation has one transaction, so that it can be stored as it came |
| ProtocolSystem.OwnIsGenuine | packages/fastbtc-node/src/core/transfers.ts:744-770 | whatever stored batch an initiator goes on with, its initial and signed transaction are the same and the listed keys have signed it |
| SignedPayouts.ExactCommitment | packages/fastbtc-node/src/core/transfers.ts:1052-1077 | a batch without repeated ids that passes the commitment check holds exactly the transfers committed under its hash, none missing and none extra, by counting against the committed size |
| SignedPayouts.SigningEstablishes | packages/fastbtc-node/src/core/transfers.ts:858-875 | a node that follows the contract up to any block and signs after validation signs a transaction that pays exactly one committed batch |
| SigningConditions.BatchValidExactly | packages/fastbtc-node/src/core/transfers.ts:964-1008 | for a node that follows the contract, whatever the message holds: validation accepts if and only if the ids are distinct, all rows show one status, each transfer is in the contract at both blocks and has the expected status, the update signatures are valid, and the transactions pay out exactly the batch under its hash |
| SigningConditions.SigningExactly | packages/fastbtc-node/src/core/transfers.ts:858-875 | such a node signs the Bitcoin transaction if and only if, besides, every transfer is SENDING in the contract and the batch is one committed under its hash |
| SigningConditions.SendingExactly | packages/fastbtc-node/src/core/transfers.ts:843-856 | one signature short, it completes a SENDING update if and only if every transfer is NEW in the contract and the rest is in order |
| SigningConditions.MinedExactly | packages/fastbtc-node/src/core/transfers.ts:847-856 | one signature short, it completes a MINED update if and only if the transaction is known to Bitcoin and every transfer is SENDING in the contract |
| SigningConditions.CommitmentExactly | packages/fastbtc-node/src/core/transfers.ts:1052-1077 | the commitment check accepts a loaded batch without repetitions if and only if its transfers are those of a batch committed under its hash |
| SigningConditions.BuiltBatchIsSigned | packages/fastbtc-node/src/core/transfers.ts:675-690 | a payout as an initiator builds it, of any transfers, with any inputs, change and amounts, is signed by every node that follows the contract once it is committed and SENDING there |
| SigningConditions.KeysArePayable | packages/fastbtc-node/src/btc/multisig.ts:366-390 | distinct transfers of a reachable contract can always be paid by one transaction and read back |
| ProtocolSystem.ScanFollows | packages/fastbtc-node/src/rsk/scanner.ts:51-210 | a successful scan takes a node whose tables are the replay of the log up to one block to the replay of the log up to a later, confirmed block |
| BridgeTimeline.RangeIsDifference | packages/fastbtc-node/src/rsk/utils.ts:31-61 | a confirmed block range of the present log is exactly what the contract wrote between the ends of two blocks |
| NodeAgreement.ReplayAgrees | packages/fastbtc-node/src/core/transfers.ts:567-578 | statuses that a node wrote ahead of its scanner never change whether a replay succeeds nor anything but statuses in what it stores |
| ScannerRefinement.ReplayRefines | packages/fastbtc-node/src/rsk/scanner.ts:92-201 | in every reachable contract state, replaying the log gives the contract's own transfers, each with the hash of its own markTransfersAsSending and Invalid for a bad address, and its commitments, exactly when every batch has at most 255 ids and no hash was committed twice; otherwise the replay throws |
| ScannerRefinement.OversizedThrows | packages/fastbtc-node/src/rsk/scanner.ts:157-174 | a batch of more than 255 ids makes the commitment lookup fail, because its size in the event is cut to eight bits |
| ScannerRefinement.RepeatedThrows | packages/fastbtc-node/src/db/models.ts:214-215 | a hash committed a second time makes every later replay throw |
| ScannerRefinement.UnreplayableReachable | packages/fastbtc-node/src/db/models.ts:214-215 | such a log is reachable by calls: an admin marks the contract ready and a quorum of federators commits one hash twice |
| ScannerRefinement.RowsFromDeposits | packages/fastbtc-node/src/rsk/scanner.ts:99-130 | every replayed row has the address, nonce, amount without the fee, fee, owner and place in the chain of a deposit in the log |
| NodeDatabase.ReplayConcat | packages/fastbtc-node/src/rsk/scanner.ts:92-201 | replaying two stretches one after the other is replaying them together |
| Scanner.EventScanner.constructor | packages/fastbtc-node/src/rsk/scanner.ts:56-62 | a new scanner starts before the start block with empty tables |
| Scanner.EventScanner.ScanNewEvents | packages/fastbtc-node/src/rsk/scanner.ts:51-210 | one scan is the replay of all new confirmed blocks, or leaves everything as it was after an exception; the last processed block becomes the latest confirmed one unless it is later already; every changed transfer is reported once |
| Scanner.EventScanner.HandleEvent | packages/fastbtc-node/src/rsk/scanner.ts:99-200 | one event with rows buffered until the end has the effect of the event on the tables |
| Scanner.ScansCompose | packages/fastbtc-node/src/rsk/scanner.ts:66-71 | scanning up to one block and later to another gives the tables of one scan to the later block |
| Scanner.ScansToConfirmed | packages/fastbtc-node/src/rsk/scanner.ts:66-71 | after a scan the last processed block is the greater of the old one and the current block less the confirmations |
| Scanner.UnconfirmedIgnored | packages/fastbtc-node/src/rsk/scanner.ts:66-89 | two chains that agree up to the last confirmed block give the same result, whatever they hold later |
| Events.GetEvents | packages/fastbtc-node/src/rsk/utils.ts:9-79 | for any batch size the result is the log's entries in the block range, none lost, none twice, in chain order |
| Events.QueryRanges | packages/fastbtc-node/src/rsk/utils.ts:31-61 | querying range by range and kind by kind gathers exactly the entries of the whole range |
| Events.Sort | packages/fastbtc-node/src/rsk/utils.ts:65-76 | sorting by block, transaction index and log index restores the order of the log |
| Events.OrderUnique | packages/fastbtc-node/src/rsk/utils.ts:65-76 | entries in chain order are determined by which entries they are |
| Events.RangesConcat | packages/fastbtc-node/src/rsk/utils.ts:31-61 | consecutive block ranges of the log are consecutive stretches of it |
| BridgeCalls.ExecIsFlat | packages/fastbtc-contracts/contracts/FastBTCBridge.sol:396-419 | any call, with any nesting of calls made by receivers of payments, is a sequence of atomic steps: re-entrancy adds no behaviour |
| BridgeInvariants.InvStep | packages/fastbtc-contracts/contracts/FastBTCBridge.sol:264-419 | every atomic step keeps exact solvency, id freshness, and the partition of committed transfers into batches |
| BridgeInvariants.InvExec | packages/fastbtc-contracts/contracts/FastBTCBridge.sol:232-419 | every call keeps these invariants, callbacks included |
| BridgeInvariants.HeldMove | packages/fastbtc-contracts/contracts/FastBTCBridge.sol:343-355 | moving distinct transfers to another status moves exactly their sum between the sums per status group |
| BridgeInvariants.CommitFits | packages/fastbtc-contracts/contracts/FastBTCBridge.sol:343-355 | the unchecked addition to totalAdminWithdrawableRbtc never wraps: what it adds is still part of the balance |
| BridgeInvariants.FreshId | packages/fastbtc-contracts/contracts/FastBTCBridge.sol:273-301 | the 'Transfer already exists' check never fires, and the eight-bit nonce never overflows |
| BridgeInvariants.EvolvesExec | packages/fastbtc-contracts/contracts/FastBTCBridge.sol:232-419 | over any call a stored transfer keeps all its data, statuses only move forward, and log and commitments only grow |
| BridgeLog.Conservation | packages/fastbtc-contracts/contracts/FastBTCBridge.sol:810-826 | at every moment, inside callbacks too: the deposits in the log are exactly the transfers waiting, promised to Bitcoin and paid back; what is promised is withdrawable or withdrawn; and the balance covers waiting transfers plus the withdrawable total |
| BridgeLog.ReachableOrdered | packages/fastbtc-contracts/contracts/FastBTCBridge.sol:465-477 | the log is always in chain order and before the present position |
| BridgeLog.ReachableAnnounced | packages/fastbtc-contracts/contracts/FastBTCBridge.sol:295-314 | in every reachable state each transfer was announced by a deposit in the log with its address, nonce, owner, total amount and block, and each deposit in the log is a transfer |
| BridgeContract.FastBTCBridge.constructor | packages/fastbtc-contracts/contracts/FastBTCBridge.sol:167-173 | a deployed contract is in an initial state, whatever ether was sent to its address before |
| BridgeContract.FastBTCBridge.TransferToBtc | packages/fastbtc-contracts/contracts/FastBTCBridge.sol:264-315 | the whole new state or a revert, for every input; keeps the invariants without the already-exists check |
| BridgeContract.FastBTCBridge.MarkTransfersAsSending | packages/fastbtc-contracts/contracts/FastBTCBridge.sol:326-356 | the loop with unchecked arithmetic either moves all the distinct waiting transfers, emitting the commitment and one event each in order, or reverts without a trace |
| BridgeContract.FastBTCBridge.MarkEach | packages/fastbtc-contracts/contracts/FastBTCBridge.sol:343-355 | the loop returns normally exactly when the ids are distinct and all waiting |
| BridgeContract.FastBTCBridge.MarkTransfersAsMined | packages/fastbtc-contracts/contracts/FastBTCBridge.sol:363-389 | the same from SENDING to MINED |
| BridgeContract.FastBTCBridge.ReclaimTransfer | packages/fastbtc-contracts/contracts/FastBTCBridge.sol:232-258 | guards, status change and payment with a callback, exactly as the specification of the call |
| BridgeContract.FastBTCBridge.RefundTransfers | packages/fastbtc-contracts/contracts/FastBTCBridge.sol:396-419 | the loop with an external call in each round gives the state of the specification, or reverts as a whole |
| BridgeContract.FastBTCBridge.RefundTransferRbtc | packages/fastbtc-contracts/contracts/FastBTCBridge.sol:481-488 | the amount leaves after the status is final |
| BridgeContract.FastBTCBridge.UpdateTransferStatus | packages/fastbtc-contracts/contracts/FastBTCBridge.sol:465-477 | one status and one event |
| BridgeContract.FastBTCBridge.WithdrawRbtc | packages/fastbtc-contracts/contracts/FastBTCBridge.sol:813-826 | an admin gets at most the withdrawable total, which is reduced before the payment |
| BridgeContract.FastBTCBridge.SendValue | packages/fastbtc-contracts/contracts/FastBTCBridge.sol:486-487 | a payment runs arbitrary code; the balance is always sufficient |
| BridgeContract.FastBTCBridge.Receive | packages/fastbtc-contracts/contracts/FastBTCBridge.sol:487-487 | foreign code gets control only in solvent states and may make any calls; the contract is solvent again when it gets control back |
| BridgeContract.FastBTCBridge.CopyNonces | packages/fastbtc-contracts/contracts/FastBTCBridge.sol:902-916 | nonces are overwritten in order, before initialization only |
| BridgeContract.FastBTCBridge.MarkReady | packages/fastbtc-contracts/contracts/FastBTCBridge.sol:933-940 | initialization happens once |
| BridgeContract.PendingCovered | packages/fastbtc-contracts/contracts/FastBTCBridge.sol:481-488 | every waiting transfer can be paid back from the balance |
| BridgeContract.WithdrawalCovered | packages/fastbtc-contracts/contracts/FastBTCBridge.sol:820-825 | the withdrawable total is always there |
| CallConditions.MarkSendingExactly | packages/fastbtc-contracts/contracts/FastBTCBridge.sol:326-356 | succeeds if and only if a federator sends it, the contract is open, a list of more than half of the federators, all different, has signed exactly this hash and these ids as SENDING, and the ids are distinct and waiting |
| CallConditions.MarkMinedExactly | packages/fastbtc-contracts/contracts/FastBTCBridge.sol:363-389 | the same for MINED and ids that are SENDING |
| CallConditions.RefundApproved | packages/fastbtc-contracts/contracts/FastBTCBridge.sol:396-419 | a refund succeeds if and only if it is approved in the same way and its loop goes through |
| CallConditions.RefundExactly | packages/fastbtc-contracts/contracts/FastBTCBridge.sol:396-419 | with receivers that just accept, the loop goes through if and only if the ids are distinct and waiting: there is always enough ether |
| CallConditions.RefundedOnce | packages/fastbtc-contracts/contracts/FastBTCBridge.sol:396-419 | whatever the receivers do in between, a refund that goes through has refunded each transfer once |
| CallConditions.UpdateNeedsMajority | packages/fastbtc-contracts/contracts/FastBTCAccessControl.sol:99-121 | behind every successful update is a set of more than half of the federators, each with a signature of exactly this update |
| CallConditions.UpdatesShareSigner | packages/fastbtc-contracts/contracts/FastBTCAccessControl.sol:135-141 | any two successful updates under the same federators, of any kind and at any time, have a signer in common |
| CallConditions.EveryChangeAuthorised | packages/fastbtc-contracts/contracts/FastBTCBridge.sol:232-419 | after a call with callbacks to any depth, every new status of a transfer was given by a deposit, by a reclaim of it, or by an update of it that more than half of the federators have signed, made in the course of the call |
| CallConditions.DepositExactly | packages/fastbtc-contracts/contracts/FastBTCBridge.sol:264-315 | succeeds exactly under the configured conditions, that the identifier is free not being one of them; the log then shows amount less fee and fee |
| CallConditions.FeeExactly | packages/fastbtc-contracts/contracts/FastBTCBridge.sol:573-581 | the fee is the base fee and the proportional one rounded down |
| CallConditions.ReclaimExactly | packages/fastbtc-contracts/contracts/FastBTCBridge.sol:232-258 | succeeds if and only if the transfer is waiting, the log names the sender as its depositor, the waiting time since the block of that entry is over, and the receiver accepts; there is always enough ether |
| CallConditions.WithdrawExactly | packages/fastbtc-contracts/contracts/FastBTCBridge.sol:813-826 | succeeds if and only if an admin asks for no more than the withdrawable total and the receiver accepts |
| CallConditions.SetupOnce | packages/fastbtc-contracts/contracts/FastBTCBridge.sol:902-940 | only an admin marks the contract ready, and in no later state anybody can do so again or overwrite nonces |
| CallConditions.ReceiverRuns | packages/fastbtc-contracts/contracts/FastBTCBridge.sol:486-487 | what the receiver of a payment calls is executed on the state after the payment |
| TransferIds.TransferIdInjective | packages/fastbtc-contracts/contracts/FastBTCBridge.sol:546-555 | the packed preimage determines address and nonce, for addresses of any length and content |
| AccessControl.CheckFederatorSignatures | packages/fastbtc-contracts/contracts/FastBTCAccessControl.sol:99-121 | accepts exactly the lists whose recovered signers are distinct non-zero federators and more than half of all |
| AccessControl.QuorumsIntersect | packages/fastbtc-contracts/contracts/FastBTCAccessControl.sol:135-141 | any two accepted lists share a federator |
| AccessControl.QuorumFits | packages/fastbtc-contracts/contracts/FastBTCAccessControl.sol:135-141 | an accepted list has at least the required number of signers and at most all federators |
| TransferBatches.HasValidTransferState | packages/fastbtc-node/src/core/transfers.ts:216-232 | true exactly when all statuses are equal and one of New, Sending, Mined |
| TransferBatches.LoadRoundTrip | packages/fastbtc-node/src/core/transfers.ts:286-325 | what is loaded from a message is sent on as the same message, and loading that again gives the same batch |
| Validator.ValidateTransfers | packages/fastbtc-node/src/core/transfers.ts:1118-1143 | accepts exactly distinct ids whose data on chain agree now and some blocks ago, with the expected status and total amount |
| Validator.TransfersValidExactly | packages/fastbtc-node/src/core/transfers.ts:1118-1183 | in terms of the contract at the two blocks: each deposit is in both, the same up to status and block number, with the row's total amount and the expected status |
| Validator.ValidateSignatureAndAddresses | packages/fastbtc-node/src/core/transfers.ts:1010-1046 | accepts exactly aligned lists of distinct federators, each the signer of its signature |
| Validator.SignaturesValidExactly | packages/fastbtc-node/src/core/transfers.ts:1010-1046 | the lists pass if and only if they are signatures of this very message by different federators, aligned with their checksummed addresses |
| Validator.ValidSignaturesAreQuorum | packages/fastbtc-node/src/core/transfers.ts:1010-1046 | lists that pass here and are long enough pass the contract's check |
| Validator.ValidatePsbt | packages/fastbtc-node/src/core/transfers.ts:1079-1116 | accepts exactly the transactions described by the shape, hash, count and lookup conditions |
| Validator.PsbtBijection | packages/fastbtc-node/src/core/transfers.ts:1079-1126 | with distinct ids, a transaction is accepted if and only if it has the right shape and hash and pays every transfer of the batch exactly once and nothing else, by pigeonhole |
| Validator.PsbtExactly | packages/fastbtc-node/src/core/transfers.ts:1079-1116 | with distinct ids, a transaction is accepted if and only if it has the right hash and its outputs are those of a payout of exactly the transfers of the batch, in any order, with the change to the change address |
| Validator.AcceptedPaysNobodyElse | packages/fastbtc-node/src/core/transfers.ts:1079-1116 | an accepted transaction pays transfers of the batch, the change address by its last output, and nobody else |
| Validator.AmountsIgnored | packages/fastbtc-node/src/core/transfers.ts:1094-1113 | transactions that differ only in the values of payments and change are accepted for the same batches, each under its own hash |
| Validator.WrongAmountAccepted | packages/fastbtc-node/src/core/transfers.ts:1094-1113 | a batch of one transfer of 1000 satoshi is accepted with a transaction that pays it 1 satoshi |
| Validator.ValidateTransferBatchCommitment | packages/fastbtc-node/src/core/transfers.ts:1052-1077 | accepts exactly when commitment, size and the hash of each transfer match the batch |
| Validator.ValidateTransferBatch | packages/fastbtc-node/src/core/transfers.ts:964-1008 | the conjunction of the checks, in the order of the source |
| Validator.ValidateForSigningBitcoinTransaction | packages/fastbtc-node/src/core/transfers.ts:858-875 | accepts exactly what must hold before this node signs; in particular never an empty batch, nor one with a transfer that is not SENDING in the contract |
| Payout.GetTransactionTransfers | packages/fastbtc-node/src/btc/multisig.ts:418-503 | reads the transfers of exactly the well-formed transactions |
| Payout.ReadIsPaid | packages/fastbtc-node/src/btc/multisig.ts:474-502 | what is read is what the transaction pays, each (address, nonce) pair once |
| Payout.PayoutRoundTrip | packages/fastbtc-node/src/btc/multisig.ts:366-390 | the transfers built into a payout are read back in order if and only if there is at least one, every nonce is below 255 and no pair repeats |
| Payout.ReadExactly | packages/fastbtc-node/src/btc/multisig.ts:418-503 | a transaction is read as given transfers if and only if these can be paid at all and its outputs are, in order, the nonces, one payment to each with its amount, and, unless there is to be none, one last output to the change address |
| Payout.ReadPaysNobodyElse | packages/fastbtc-node/src/btc/multisig.ts:460-502 | every output after the first of a transaction that is read is for one of the transfers read, or is the last and goes to the change address |
| CoinSelection.SelectCoins | packages/fastbtc-node/src/btc/multisig.ts:310-347 | takes the usable outputs in order up to the first prefix that covers amount and its own fee, or to the cap or the end |
| CoinSelection.SelectedUnique | packages/fastbtc-node/src/btc/multisig.ts:310-347 | the number of inputs is determined by outputs, amount, fees and cap |
| CoinSelection.UsableMembers | packages/fastbtc-node/src/btc/multisig.ts:310-327 | what is selected from are the outputs that could be fetched |
| CoinSelection.CreatePayout | packages/fastbtc-node/src/btc/multisig.ts:233-416 | succeeds exactly when at most 40 transfers are asked for, their addresses can be decoded, and some prefix of the usable outputs covers them and the fee estimated for its size; then inputs = payments + change + fee with change at least 0, over the shortest covering prefix |
| CoinSelection.NoInputToSpare | packages/fastbtc-node/src/btc/multisig.ts:310-347 | no shorter prefix would have covered the payments, although its fee is at most the fee paid |
| CoinSelection.CreateReplenishment | packages/fastbtc-node/src/btc/multisig.ts:349-401 | exactly when it fails, undecodable addresses included; otherwise the one receiver gets the inputs less the fee, and less than asked for only under a cap |
| CoinSelection.ReplenishmentBalances | packages/fastbtc-node/src/btc/multisig.ts:397-400 | inputs = what the receiver gets + fee |
| CoinSelection.SendsLessExactly | packages/fastbtc-node/src/btc/multisig.ts:349-365 | inputs that do not pay for the amount are sent all the same if and only if their number is capped, there are some, and they pay the fee |
| CoinSelection.EstimateFee | packages/fastbtc-node/src/btc/multisig.ts:329-339 | the fee of a number of inputs is the rounded size estimate times the rate |
| CoinSelection.FeeGrows | packages/fastbtc-node/src/btc/multisig.ts:329-339 | a further input never lowers the fee |
| CoinSelection.PayoutFee | packages/fastbtc-node/src/btc/multisig.ts:329-339 | the fee of a payout is the rate times its size in whole virtual bytes, to the nearest satoshi, where the weight is four per byte outside and one per byte inside the witnesses |
| CoinSelection.RoundNearest | packages/fastbtc-node/src/btc/multisig.ts:339-339 | rounding is to the nearest whole number, halves up |
| ByteCount.GetByteCount | packages/fastbtc-node/src/btc/bytecount.ts:12-104 | the loops compute the total weight in virtual bytes, rounded up |
| ByteCount.MoreInputsWeighMore | packages/fastbtc-node/src/btc/bytecount.ts:57-80 | each further wallet input adds at least 170 weight units |
| ByteCount.UsageExamples | packages/fastbtc-node/src/btc/bytecount.ts:8-10 | the two examples of the description come to 14939 and 820 bytes |
| ByteCount.WeightsOfTypes | packages/fastbtc-node/src/btc/bytecount.ts:23-37 | wrapped inputs cost the bytes of their redeem scripts more, and an output is value, length and script |
| BitcoinSignatures.Combine | packages/fastbtc-node/src/btc/multisig.ts:535-570 | merges in order, stops at the required number, and refuses different transactions |
| BitcoinSignatures.AddBitcoinSignatures | packages/fastbtc-node/src/core/transfers.ts:499-545 | selection, own signature and combination as specified, thrown errors included |
| BitcoinSignatures.SignsOnce | packages/fastbtc-node/src/btc/multisig.ts:513-533 | a node signs exactly a transaction that does not list it yet, and adds itself once |
| BitcoinSignatures.SignaturesAccumulate | packages/fastbtc-node/src/core/transfers.ts:499-545 | with responses of at most one key and the same number required, on any transactions, a call throws exactly if one of the first kept, as many as signatures are missing, is on another transaction; otherwise signers stay distinct and at most as many as required, none is lost, and each call with a fresh key lowers the number missing |
| SignatureProgress.SignaturesGained | packages/fastbtc-node/src/core/transfers.ts:507-538 | with single keys on the right transaction the number of signatures gained by a call is exactly the number of new signers, this node included, but at most as many as are missing, and, while less than half are there, at most the number required less twice those there |
| BitcoinSignatures.CombineSingles | packages/fastbtc-node/src/btc/multisig.ts:541-561 | single keys with the same number required fail to combine if and only if one of the first, as many as signatures are missing, is on another transaction |
| BitcoinSignatures.CombineExactly | packages/fastbtc-node/src/btc/multisig.ts:541-568 | for any transactions: combining merges the first ones while signatures are missing and the transaction is the same, takes the number required from the last one merged, and throws if and only if it has to stop without having hit that number |
| BitcoinSignatures.CombineWithinExactly | packages/fastbtc-node/src/btc/multisig.ts:541-568 | for any transactions and any bound, combining succeeds within the bound if and only if the merging stops there with nothing left or with the number hit |
| BitcoinSignatures.LowerRequired | packages/fastbtc-node/src/btc/multisig.ts:561-567 | a single key with a lower number required makes the call fail, or makes the batch count as complete with one signature, so that later calls change nothing |
| BitcoinSignatures.TwoKeysTooMany | packages/fastbtc-node/src/btc/multisig.ts:541-548 | a response with two keys can leave more signers than required, and then a further one makes the call fail |
| BitcoinSignatures.OwnSignatureFollows | packages/fastbtc-node/src/core/transfers.ts:513-542 | for any responses: a new key came with a response on that very transaction or with the initial one, or is the node's own; then somebody's signature on the transaction was there before or came with a response, unless every response was empty |
| BitcoinSignatures.SignsAloneExactly | packages/fastbtc-node/src/core/transfers.ts:513-542 | with nothing signed yet, the node signs alone if and only if a signature is required and every response is empty |
| BitcoinSignatures.EmptyResponseSignsAlone | packages/fastbtc-node/src/core/transfers.ts:519-522 | one empty response, and the node's signature is the only one stored |
| RskSignatures.AddRskSignatures | packages/fastbtc-node/src/core/transfers.ts:417-497 | both functions: the loop over offers and the own signature as specified |
| RskSignatures.TakeAllSound | packages/fastbtc-node/src/core/transfers.ts:428-445 | offers keep the lists aligned, distinct ignoring case, signed by their signers, and no longer than required |
| RskSignatures.OwnSignatureOnce | packages/fastbtc-node/src/core/transfers.ts:446-451 | the result is sound if and only if it is not the case that the signers of the batch and of the matching offers are one short of the number required and this node is among them |
| RskSignatures.TakeAllSignatories | packages/fastbtc-node/src/core/transfers.ts:428-445 | what is gathered comes from those signers, and from all of them as long as the list is not full |
| RskSignatures.FreshNodeKeepsSound | packages/fastbtc-node/src/core/transfers.ts:417-456 | a node in neither the batch nor the responses keeps the lists sound |
| RskSignatures.OwnSignatureTwice | packages/fastbtc-node/src/core/transfers.ts:446-451 | a response with this node's own signature makes it appear twice |
| RskSignatures.CompleteBatchAccepted | packages/fastbtc-node/src/core/transfers.ts:909-928 | a complete sound list is accepted by the contract if and only if all its signers are federators |
| RskSignatures.OutsiderTaken | packages/fastbtc-node/src/core/transfers.ts:915-919 | an outsider's signature is kept and fills the list: a sound, complete list that the contract refuses |
| NodeIteration.FastBTCNode.constructor | packages/fastbtc-node/src/core/node.ts:105-105 | no batch and nothing gathered |
| NodeIteration.FastBTCNode.OnBitcoinSignatureResponse | packages/fastbtc-node/src/core/node.ts:577-603 | keeps the invariant that every gathered response came with a batch that has the ids, hash, unsigned transaction and number required of the current one (listed signers are not compared); other responses are dropped |
| NodeIteration.FastBTCNode.OnRskSendingSignatureResponse | packages/fastbtc-node/src/core/node.ts:571-575 | keeps that invariant for signatures of the SENDING update |
| NodeIteration.FastBTCNode.OnRskMinedSignatureResponse | packages/fastbtc-node/src/core/node.ts:583-587 | keeps that invariant for signatures of the MINED update |
| NodeIteration.KeptResponsesCount | packages/fastbtc-node/src/core/node.ts:577-603 | thanks to that invariant, Bitcoin responses by nodes running this code to messages whose initial transaction lists no signer never make the update fail, none is counted twice, and each new signer counts |
| NodeIteration.ListedSignersNotCompared | packages/fastbtc-node/src/core/transfers.ts:106-127 | a response by such a node to a message whose initial transaction lists a signer is kept, carries two keys, and leaves more signers than required |
| NodeIteration.KeptOfferMatches | packages/fastbtc-node/src/core/node.ts:571-603 | a kept signature of the batch that came along is a signature of the current batch's update |
| NodeIteration.MatchesExactly | packages/fastbtc-node/src/core/transfers.ts:106-127 | a message matches if and only if it differs from the batch at most in update signatures, listed signers and the signed transaction, with the numbers required in agreement |
| NodeIteration.EarlierMessagesMatch | packages/fastbtc-node/src/core/transfers.ts:106-127 | so responses to messages about earlier versions of a batch are still kept after an update |
| NodeIteration.FastBTCNode.UpdateTransferBatch | packages/fastbtc-node/src/core/node.ts:335-386 | responses are used up in any case, and have an effect only on a batch with the very transfers they were all made for |
| NodeIteration.UpdateExtends | packages/fastbtc-node/src/core/node.ts:353-385 | an update never loses a signature and never changes transfers, hash or transaction |
| NodeIteration.UpdatedWithoutCommitment | packages/fastbtc-node/src/core/transfers.ts:92-104 | a batch changed by an update has lost its commitment and must be loaded again before it passes the commitment check |
| NodeIteration.UpdateSoundExactly | packages/fastbtc-node/src/core/node.ts:353-385 | an update of a sound batch leaves both RSK signature lists sound and no longer than required if and only if in neither step this node signs a second time, in terms of batch and responses |
| NodeIteration.OwnSendingCompletes | packages/fastbtc-node/src/core/transfers.ts:446-451 | a SENDING list completed by this node's own validated signature is accepted by the contract if and only if the node is a federator and had not signed |
| NodeIteration.OwnMinedCompletes | packages/fastbtc-node/src/core/transfers.ts:487-492 | the same for the MINED list |
| NodeIteration.NewKeysFollow | packages/fastbtc-node/src/core/node.ts:363-370 | every key an update adds came with a response or the initial transaction, or is the initiator's own on top of somebody's signature, unless all responses were empty |
| NodeIteration.OwnKeyAloneExactly | packages/fastbtc-node/src/core/node.ts:363-370 | with nothing signed yet, the initiator ends up as only signer by its own doing exactly when there were responses and all were empty |
| StageConditions.SendsWhenAccepted | packages/fastbtc-node/src/core/node.ts:258-280 | with signatures by federators and a majority required, a due batch that is NEW is sent to the contract if and only if the contract's call would succeed, and signatures are asked for otherwise |
| StageConditions.MinesWhenAccepted | packages/fastbtc-node/src/core/node.ts:305-332 | the same for the MINED update after the Bitcoin transaction |
| StageConditions.SendsToBitcoinWhenSigned | packages/fastbtc-node/src/core/node.ts:282-303 | in between, the transaction is sent if and only if it has as many signatures as it requires |
| StageConditions.OtherStages | packages/fastbtc-node/src/core/node.ts:215-233 | a batch is given up, left alone or finished exactly by the status of its transfers, whether it is due, and whether it is in Bitcoin |
| NodeProgress.UpdateAdvances | packages/fastbtc-node/src/core/node.ts:188-332 | the responses an iteration adds leave a valid, due batch at its stage or further on |
| NodeProgress.ScanAdvances | packages/fastbtc-node/src/core/node.ts:142-332 | neither does a scan put it back, for any node that follows the log and has written none of the statuses that the scan settles ahead of the contract, if the batch has a valid state again |
| NodeProgress.ScanIsLaterExactly | packages/fastbtc-node/src/rsk/scanner.ts:99-176 | after a scan the same batch loads with every status as before or moved forward if and only if the node had written none of those settled by it ahead of the contract |
| NodeProgress.MirroredNotAhead | packages/fastbtc-node/src/rsk/scanner.ts:99-176 | which is so for a valid batch of a node that has written nothing by itself |
| NodeProgress.StatusExactly | packages/fastbtc-node/src/rsk/scanner.ts:99-117 | a node that writes nothing itself shows the contract's statuses, except that a waiting transfer to an address it cannot parse is Invalid |
| NodeProgress.ScanPutsBack | packages/fastbtc-node/src/core/transfers.ts:583-609 | a transfer written MINED before its SENDING update was scanned is put back to SENDING by that scan |
| NodeProgress.BitcoinStagesSafe | packages/fastbtc-node/src/core/node.ts:282-332 | a node with no statuses of its own writing asks for Bitcoin signatures, and does everything after that, only while every transfer is SENDING or MINED in the contract, now and ever after |
| NodeProgress.AskedTooEarly | packages/fastbtc-node/src/core/transfers.ts:567-578 | a node that has written SENDING for a transfer that is NEW in the contract asks for Bitcoin signatures for it |
| NodeProgress.CommittedExactly | packages/fastbtc-node/src/rsk/scanner.ts:157-174 | whatever statuses a node has written: all transfers of a batch are SENDING or MINED in the contract if and only if every loaded row has a Bitcoin hash |
| NodeProgress.SigningSafe | packages/fastbtc-node/src/core/transfers.ts:858-875 | whatever statuses a node has written: what passes its validation for signing is SENDING or MINED in the contract, now and ever after |
| BatchService.GetNextBatchTransfers | packages/fastbtc-node/src/core/transfers.ts:712-742 | the longest prefix of the queue within the count and 5 BTC caps |
| BatchService.RemainderWithinCaps | packages/fastbtc-node/src/core/transfers.ts:357-379 | removing reclaimed transfers keeps a batch within the caps |
| BatchService.SelectMembers | packages/fastbtc-node/src/core/transfers.ts:364-373 | the two parts are exactly the transfers that are and are not reclaimed |
| BatchService.ValidExactly | packages/fastbtc-node/src/core/transfers.ts:931-962 | a batch is valid if and only if it is not empty and one status, NEW, SENDING or MINED, is that of all its rows and of all its transfers in the contract |
| BatchService.SelectInOrder | packages/fastbtc-node/src/core/transfers.ts:357-379 | the parts keep the order of the batch |
| BatchService.PurgeNotRefused | packages/fastbtc-node/src/core/transfers.ts:331-335 | a batch with a transfer reclaimed on chain is invalid at every later moment, so purging it is never refused |
| BatchService.BitcoinTransferService.constructor | packages/fastbtc-node/src/core/transfers.ts:256-272 | no stored batches |
| BatchService.BitcoinTransferService.HandleReclaimedTransfers | packages/fastbtc-node/src/core/transfers.ts:357-405 | every outcome with the stored batches it leaves: the old batch gone, the order-preserving remainder stored, never a refused purge |
| BatchService.BitcoinTransferService.PurgeTransferBatch | packages/fastbtc-node/src/core/transfers.ts:331-344 | refuses exactly the valid batches, reverts when the contract does not know a transfer it is asked about, and otherwise removes the batch for good |
| BatchService.BitcoinTransferService.UpdateStoredTransferBatch | packages/fastbtc-node/src/core/transfers.ts:325-329 | replaces the stored batch of the same transfers or adds one |
| BatchService.SavedIsFound | packages/fastbtc-node/src/db/models.ts:173-197 | after saving, the batch is found by its transfers, finalized exactly if it was or is MINED altogether, no transfers are stored twice, and any other batch is found exactly as before, unchanged |
| BatchService.RemovedIsGone | packages/fastbtc-node/src/core/transfers.ts:331-344 | removing takes away the batch of the given transfers, and every other batch is found as before |
| Polymod.DescsumPolymod | integration_test/scripts/descriptor_checksum.py:13-21 | the nested loops compute the register of the specification |
| Polymod.Feed | integration_test/scripts/descriptor_checksum.py:16-20 | the five conditional exclusive-ors are one multiplication step modulo the generator |
| Polymod.TurnLinear | integration_test/scripts/descriptor_checksum.py:16-20 | the step is linear over exclusive or |
| Polymod.RunInjective | integration_test/scripts/descriptor_checksum.py:13-21 | for fixed symbols the register is an injective function of its start value |
| Polymod.BurstDetected | integration_test/scripts/descriptor_checksum.py:13-21 | any error confined to eight consecutive symbols, in a sequence of any length, changes the result |
| Polymod.ChecksumCompletes | integration_test/scripts/descriptor_checksum.py:44-45 | with its eight checksum symbols appended every sequence ends in register value 1 |
| Polymod.ChecksumUnique | integration_test/scripts/descriptor_checksum.py:44-57 | and no other eight symbols do that |
| Descriptor.DescsumExpand | integration_test/scripts/descriptor_checksum.py:23-40 | the loop over characters and groups gives the symbols of the whole string, or None for a character outside the alphabet |
| Descriptor.SymbolsInjective | integration_test/scripts/descriptor_checksum.py:23-40 | equally long strings with the same symbols are equal |
| Descriptor.AcceptedIffCreated | integration_test/scripts/descriptor_checksum.py:42-57 | a string is accepted if and only if it is descsum_create of its own body |
| Descriptor.RoundTrip | integration_test/scripts/descriptor_checksum.py:42-57 | descsum_check(descsum_create(s)) holds for every s over the alphabet, and descsum_create fails for all others |
| Descriptor.CorruptionDetected | integration_test/scripts/descriptor_checksum.py:48-57 | no change of up to four consecutive characters is ever accepted, separator and checksum included |
| DescriptorExample.KnownChecksum | integration_test/scripts/descriptor_checksum.py:42-46 | the checksum of raw(deadbeef) is 89f8spxm, as in BIP 380 |
| DescriptorExample.IndexIsPosition | integration_test/scripts/descriptor_checksum.py:9-9 | the index of every character: digits, then letters whose cases differ by a multiple of 32, and the rest in between |
| AddressValidator.BTCAddressValidator.constructor | packages/fastbtc-contracts/contracts/BTCAddressValidator.sol:33-43 | the prefixes given and the default lengths |
| AddressValidator.BTCAddressValidator.IsValidBtcAddress | packages/fastbtc-contracts/contracts/BTCAddressValidator.sol:48-62 | accepts exactly the shapes described, the redundant legacy flag notwithstanding |
| AddressValidator.BTCAddressValidator.ValidateBech32Address | packages/fastbtc-contracts/contracts/BTCAddressValidator.sol:65-91 | the or-accumulated 256-bit mask is free of invalid bits exactly when every byte after the prefix is a digit or lowercase letter other than 1, b, i, o |
| AddressValidator.BTCAddressValidator.ValidateNonBech32Address | packages/fastbtc-contracts/contracts/BTCAddressValidator.sol:94-127 | length, prefix, and base-58 characters from the second on |
| AddressValidator.BTCAddressValidator.HasValidNonBech32Prefix | packages/fastbtc-contracts/contracts/BTCAddressValidator.sol:130-146 | some listed prefix matches |
| AddressValidator.BTCAddressValidator.SetNonBech32Prefixes | packages/fastbtc-contracts/contracts/BTCAddressValidator.sol:184-193 | keeps the legacy flag in step with the list |
| AddressValidator.HasPrefix | packages/fastbtc-contracts/contracts/BTCAddressValidator.sol:149-168 | the loop decides the prefix relation |
| AddressValidator.ClearUnion | packages/fastbtc-contracts/contracts/BTCAddressValidator.sol:77-87 | a union of masks is clear exactly when both are |
| AddressValidator.Bech32Charset | packages/fastbtc-contracts/contracts/BTCAddressValidator.sol:21-22 | the characters let through are exactly the 32 data characters of BIP 173 |
| AddressValidator.Base58Capitals | packages/fastbtc-contracts/contracts/BTCAddressValidator.sol:106-125 | the capitals let through are those of base 58 |
| AddressValidator.Base58Letters | packages/fastbtc-contracts/contracts/BTCAddressValidator.sol:106-125 | the lowercase letters let through are those of base 58 |
| NodeVotes.NodeValues.constructor | packages/fastbtc-node/src/utils/nodevalues.ts:7-13 | an empty table |
| NodeVotes.NodeValues.GetNodeValue | packages/fastbtc-node/src/utils/nodevalues.ts:15-21 | the node's value or null |
| NodeVotes.NodeValues.SetNodeValue | packages/fastbtc-node/src/utils/nodevalues.ts:23-29 | one entry set, or removed for null, and nothing else |
| NodeVotes.NodeValues.DeleteNodeValue | packages/fastbtc-node/src/utils/nodevalues.ts:31-33 | one entry removed |
| NodeVotes.NodeValues.GetMostPopularValue | packages/fastbtc-node/src/utils/nodevalues.ts:35-66 | null exactly for an empty table, otherwise the value with most votes, least on ties |
| NodeVotes.CountVotes | packages/fastbtc-node/src/utils/nodevalues.ts:36-48 | each value once with the number of its nodes |
| NodeVotes.Sort | packages/fastbtc-node/src/utils/nodevalues.ts:50-59 | a permutation in the order of votes and id |
| NodeVotes.MostPopularUnique | packages/fastbtc-node/src/utils/nodevalues.ts:50-59 | at most one value is the most popular: the order of entries is irrelevant |
| NodeVotes.LessAtDifference | packages/fastbtc-node/src/utils/nodevalues.ts:54-54 | strings are compared at their first difference, by code unit |
| NodeVotes.FirstDifference | packages/fastbtc-node/src/utils/nodevalues.ts:54-54 | which, with the shorter first where one continues the other, decides every comparison |
| NodeVotes.MostVotes | packages/fastbtc-node/src/utils/nodevalues.ts:50-66 | the most popular value is the one with the most votes, and the least of those with as many |
| Election.InitiatorVoting.SyncInitiatorFromNetwork | packages/fastbtc-node/src/core/initiator.ts:70-138 | for any number of tries and any messages arriving meanwhile: which try decides, what is decided, and the table afterwards |
| Election.InitiatorVoting.TryOnce | packages/fastbtc-node/src/core/initiator.ts:92-113 | a try gives the forced id or the most popular value if it is online, otherwise nothing |
| Election.InitiatorVoting.GetDefaultInitiatorId | packages/fastbtc-node/src/core/initiator.ts:200-217 | the forced id if there is one, otherwise the least id online |
| Election.InitiatorVoting.GetNodeIds | packages/fastbtc-node/src/core/initiator.ts:219-228 | the listed nodes and this one |
| Election.InitiatorVoting.Receive | packages/fastbtc-node/src/core/initiator.ts:149-188 | messages and lost nodes set and delete single entries |
| Election.InitiatorVoting.constructor | packages/fastbtc-node/src/core/initiator.ts:195-197 | no votes yet |
| Election.SettlesOnline | packages/fastbtc-node/src/core/initiator.ts:105-118 | the initiator settled on is always online, a forced one included |
| Election.ForcedSettles | packages/fastbtc-node/src/core/initiator.ts:230-248 | a forced initiator is settled on: this node itself at the first try for 'me', any other whenever it is online at the end |
| Election.Agreement | packages/fastbtc-node/src/core/initiator.ts:82-123 | two nodes without a forced id and with equal votes and online lists settle on the same initiator after the same number of tries |

## Left out

- Dishonest nodes: every signature in `Protocol` comes from the signing code of the repository, and a key listed as a
  signer in a message has signed. Otherwise requests, responses, their contents and re-sent signatures are arbitrary.
- BitcoinSignatures.SignaturesAccumulate: does not cover responses with several keys or another number required, for
  which the bounds fail (`TwoKeysTooMany`, `LowerRequired`); the exact conditions without any restriction are in
  `CombineExactly` and `CombineWithinExactly`, and where the keys come from in `OwnSignatureFollows`.
- NodeIteration.KeptResponsesCount: only for messages whose initial transaction lists no signer, as the repository's
  own nodes send them; `ListedSignersNotCompared` is an input where it fails otherwise.
- NodeProgress.BitcoinStagesSafe: only without statuses written ahead (`AskedTooEarly`); what holds with them is
  `CommittedExactly` and `SigningSafe`.
- Reorganisations of RSK: the log up to a scanned block stays as it is; every node sees the same chain.
- Cryptography, address parsing and the Bitcoin library: terms and parameters (`valid` is the nodes' address
  check, `addressAccepted` the answer of the address validator contract, PSBTs are their unsigned transaction, the
  listed signers and two flags).
- RPC calls with retries, HTTP, the database engine, peer-to-peer networking, timers, alerts and statistics.
- Roles, pausing, freezing and all setters: folded into one step that may change the configuration to anything
  within the bounds that the setters enforce; one fee structure in use at a time.
- Token withdrawal, obsolescence marks, node configuration values and the token-bridge entry point, which calls the
  same deposit function.
- The size of nested callbacks is finite, as gas makes it; gas itself is not modelled.
- Floating point in coin selection: amounts are integer satoshi and the fee rate is a real number; the order of the
  unspent outputs is the given one.
- The replenisher's loop and its counters; only its transaction is modelled.
- The built-in sort: insertion sort stands for it, with the comparison of the source.
- Further unique indexes: a second transfer with the same address and nonce, or two entries at one place in the log, would
  also be refused by the database; the contract never produces them.
- Inherited property names in the vote table: a value that is the name of a property every JavaScript object inherits
  would not be counted properly by the source; values are plain ids here, compared character by character.
- In the address validator: the setters of lengths and of the bech32 prefix, and who may call them.
- In the stages of an iteration: when a batch becomes due, and waiting for Bitcoin confirmations, are inputs.
- Decryption of secrets, the user interface, deployment tasks and migrations.
