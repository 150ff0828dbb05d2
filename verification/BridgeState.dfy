/** State of the FastBTCBridge contract, its event log, and the atomic steps it is made of. */
module BridgeState {
  import opened Base
  import opened TransferIds
  import opened Bitcoin
  import opened AccessControl

  type uint8 = n: nat | n < 256

  const SATOSHI_DIVISOR: nat := 10_000_000_000
  const DYNAMIC_FEE_DIVISOR: nat := 10_000
  const MAXIMUM_VALID_NONCE: nat := 254
  const UINT40: nat := 0x100_0000_0000
  const UINT32: nat := 0x1_0000_0000
  const UINT256: nat := 0x1_00000000_00000000_00000000_00000000_00000000_00000000_00000000_00000000

  /** The status enumeration shared by the contract and the nodes.  Invalid is used by nodes only. */
  datatype Status = NotApplicable | New | Sending | Mined | Refunded | Reclaimed | Invalid

  datatype BitcoinTransfer = BitcoinTransfer(
    rskAddress: Address,
    status: Status,
    nonce: nat,
    feeStructureIndex: nat,
    blockNumber: nat,
    totalAmountSatoshi: nat,
    btcAddress: BtcAddress)
  {
    function Wei(): nat { totalAmountSatoshi * SATOSHI_DIVISOR }
  }

  datatype Event =
    | NewBitcoinTransfer(id: TransferId, btcAddress: BtcAddress, nonce: nat, amountSatoshi: nat,
                         feeSatoshi: nat, rskAddress: Address)
    | StatusUpdated(id: TransferId, newStatus: Status)
    | BatchSending(bitcoinTxHash: BtcHash, transferBatchSize: nat)

  /** Where the next event goes: block, transaction (a global hash and an index in its block), log index. */
  datatype Clock = Clock(block: nat, txHash: nat, txIndex: nat, logIndex: nat)

  datatype LogEntry = LogEntry(at: Clock, event: Event)

  /** The message federators sign for a batch update. */
  datatype UpdateMessage =
    | BatchUpdate(newStatus: Status, ids: seq<TransferId>)
    | BatchUpdateWithTxHash(newStatus: Status, bitcoinTxHash: BtcHash, ids: seq<TransferId>)

  /** Everything that admins, pausers and guards can set. */
  datatype Config = Config(
    admins: set<Address>,
    federators: set<Address>,
    paused: bool,
    frozen: bool,
    minTransferSatoshi: nat,
    maxTransferSatoshi: nat,
    baseFeeSatoshi: nat,
    dynamicFee: nat,
    currentFeeStructureIndex: nat,
    requiredBlocksBeforeReclaim: nat)
  {
    /** The bounds the setters enforce. */
    predicate WithinBounds() {
      && maxTransferSatoshi < UINT40 && minTransferSatoshi < UINT40
      && baseFeeSatoshi < UINT32 && dynamicFee < DYNAMIC_FEE_DIVISOR
    }

    function FeeSatoshi(amountSatoshi: nat): nat {
      baseFeeSatoshi + amountSatoshi * dynamicFee / DYNAMIC_FEE_DIVISOR
    }
  }

  datatype Batch = Batch(bitcoinTxHash: BtcHash, ids: seq<TransferId>)

  /** What happened so far, kept for the statements only: ether that arrived without a call, ether
      withdrawn by admins, ether paid back to users, and what each successful
      markTransfersAsSending committed. */
  datatype History = History(
    forced: nat,
    withdrawn: nat,
    returned: nat,
    batches: seq<Batch>,
    committedIn: map<TransferId, nat>)

  /** The storage of the contract, its balance and log. */
  datatype State = State(
    config: Config,
    clock: Clock,
    transfers: map<TransferId, BitcoinTransfer>,
    nextNonces: map<BtcAddress, uint8>,
    totalAdminWithdrawableRbtc: nat,
    initialized: bool,
    reclaimEntered: bool,
    balance: nat,
    log: seq<LogEntry>,
    history: History)

  function NextNonce(s: State, btcAddress: BtcAddress): (n: nat) {
    if btcAddress in s.nextNonces then s.nextNonces[btcAddress] else 0
  }

  predicate HasStatus(s: State, id: TransferId, status: Status) {
    id in s.transfers && s.transfers[id].status == status
  }

  function Emit(s: State, event: Event): (r: State) {
    s.(log := s.log + [LogEntry(s.clock, event)], clock := s.clock.(logIndex := s.clock.logIndex + 1))
  }

  /** _updateTransferStatus. */
  function Move(s: State, id: TransferId, status: Status): (r: State)
    requires id in s.transfers
  {
    Emit(s.(transfers := s.transfers[id := s.transfers[id].(status := status)]), StatusUpdated(id, status))
  }

  function SetStatus(transfers: map<TransferId, BitcoinTransfer>, ids: seq<TransferId>, status: Status)
    : (r: map<TransferId, BitcoinTransfer>)
  {
    map id | id in transfers :: if id in ids then transfers[id].(status := status) else transfers[id]
  }

  function UpdateEntries(at: Clock, ids: seq<TransferId>, status: Status): (entries: seq<LogEntry>)
    ensures |entries| == |ids|
  {
    seq(|ids|, i requires 0 <= i < |ids| =>
      LogEntry(at.(logIndex := at.logIndex + i), StatusUpdated(ids[i], status)))
  }

  /** All of `ids` moved at once, one event each, in order. */
  function MoveAll(s: State, ids: seq<TransferId>, status: Status): (r: State) {
    s.(transfers := SetStatus(s.transfers, ids, status),
       log := s.log + UpdateEntries(s.clock, ids, status),
       clock := s.clock.(logIndex := s.clock.logIndex + |ids|))
  }

  /** One more transfer of a batch: the loop body of the two marking functions. */
  lemma MoveNext(s: State, ids: seq<TransferId>, k: nat, status: Status)
    requires k < |ids| && ids[k] in s.transfers
    ensures Move(MoveAll(s, ids[..k], status), ids[k], status) == MoveAll(s, ids[..k + 1], status)
  {
    var a := Move(MoveAll(s, ids[..k], status), ids[k], status);
    var b := MoveAll(s, ids[..k + 1], status);
    assert ids[..k + 1] == ids[..k] + [ids[k]];
    assert a.transfers == b.transfers;
    assert a.log == b.log;
  }

  /** Sum of the amounts of `ids`, in wei. */
  function WeiOf(transfers: map<TransferId, BitcoinTransfer>, ids: seq<TransferId>): (wei: nat)
    requires forall id :: id in ids ==> id in transfers
  {
    if |ids| == 0 then 0 else WeiOf(transfers, ids[..|ids| - 1]) + transfers[ids[|ids| - 1]].Wei()
  }

  /** The ether of _refundTransferRbtc leaves the contract. */
  function PayBack(s: State, wei: nat): (r: State)
    requires wei <= s.balance
  {
    s.(balance := s.balance - wei, history := s.history.(returned := s.history.returned + wei))
  }

  /** The atomic steps of the system around the contract: between two of them control may be
      anywhere, in particular in code that the contract called. */
  datatype Step =
    | Deposit(btcAddress: BtcAddress, rskAddress: Address, value: nat, addressAccepted: bool)
    | PayReclaim(sender: Address, id: TransferId)
    | EndReclaim
    | CommitBatch(bitcoinTxHash: BtcHash, ids: seq<TransferId>)
    | MineBatch(ids: seq<TransferId>)
    | PayRefund(id: TransferId)
    | PayWithdrawal(amount: nat)
    | CopyNonces(oldNonces: seq<(BtcAddress, uint8)>)
    | MarkReady
    | Configure(newConfig: Config)
    | ForceEther(wei: nat)
    | OtherLogs(count: nat)
    | NextTransaction
    | NextBlock

  predicate CanDeposit(s: State, btcAddress: BtcAddress, value: nat, addressAccepted: bool) {
    var amount := value / SATOSHI_DIVISOR;
    && !s.config.paused && s.initialized
    && addressAccepted
    && NextNonce(s, btcAddress) <= MAXIMUM_VALID_NONCE
    && value % SATOSHI_DIVISOR == 0
    && s.config.minTransferSatoshi <= amount <= s.config.maxTransferSatoshi
    && GetTransferId(btcAddress, NextNonce(s, btcAddress)) !in s.transfers  // "Transfer already exists"
    && s.config.FeeSatoshi(amount) <= amount
    && s.balance + value < UINT256
  }

  function AfterDeposit(s: State, btcAddress: BtcAddress, rskAddress: Address, value: nat): (r: State)
    requires NextNonce(s, btcAddress) <= MAXIMUM_VALID_NONCE
    requires s.config.FeeSatoshi(value / SATOSHI_DIVISOR) <= value / SATOSHI_DIVISOR
  {
    var amount := value / SATOSHI_DIVISOR;
    var fee := s.config.FeeSatoshi(amount);
    var nonce := NextNonce(s, btcAddress);
    var id := GetTransferId(btcAddress, nonce);
    var transfer := BitcoinTransfer(rskAddress, New, nonce, s.config.currentFeeStructureIndex,
                                    s.clock.block % UINT32, amount % UINT40, btcAddress);
    Emit(s.(balance := s.balance + value,
            transfers := s.transfers[id := transfer],
            nextNonces := s.nextNonces[btcAddress := nonce + 1]),
         NewBitcoinTransfer(id, btcAddress, nonce, amount - fee, fee, rskAddress))
  }

  predicate AllHaveStatus(s: State, ids: seq<TransferId>, status: Status) {
    forall id :: id in ids ==> HasStatus(s, id, status)
  }

  function RecordBatch(committedIn: map<TransferId, nat>, ids: seq<TransferId>, index: nat): (r: map<TransferId, nat>) {
    map id | id in committedIn.Keys + Elements(ids) :: if id in ids then index else committedIn[id]
  }

  function WithBatch(h: History, batch: Batch): (r: History) {
    h.(batches := h.batches + [batch], committedIn := RecordBatch(h.committedIn, batch.ids, |h.batches|))
  }

  /** markTransfersAsSending once the signatures are accepted: a commitment followed by one status
      update per transfer.  The size in the event is cut to eight bits. */
  function AfterCommit(s: State, bitcoinTxHash: BtcHash, ids: seq<TransferId>): (r: State)
    requires AllHaveStatus(s, ids, New)
  {
    MoveAll(Emit(s, BatchSending(bitcoinTxHash, |ids| % 256)), ids, Sending).(
      totalAdminWithdrawableRbtc := (s.totalAdminWithdrawableRbtc + WeiOf(s.transfers, ids)) % UINT256,
      history := WithBatch(s.history, Batch(bitcoinTxHash, ids)))
  }

  function WriteNonces(nonces: map<BtcAddress, uint8>, oldNonces: seq<(BtcAddress, uint8)>)
    : (r: map<BtcAddress, uint8>)
  {
    if |oldNonces| == 0 then nonces
    else
      var last := oldNonces[|oldNonces| - 1];
      WriteNonces(nonces, oldNonces[..|oldNonces| - 1])[last.0 := last.1]
  }

  predicate Enabled(s: State, step: Step) {
    match step
    case Deposit(btcAddress, rskAddress, value, addressAccepted) =>
      CanDeposit(s, btcAddress, value, addressAccepted)
    case PayReclaim(sender, id) =>
      && !s.reclaimEntered && !s.config.frozen && s.initialized
      && HasStatus(s, id, New)
      && s.transfers[id].rskAddress == sender
      && s.clock.block >= s.transfers[id].blockNumber + s.config.requiredBlocksBeforeReclaim
      && s.transfers[id].Wei() <= s.balance
    case EndReclaim => s.reclaimEntered
    case CommitBatch(bitcoinTxHash, ids) => s.initialized && NoDuplicates(ids) && AllHaveStatus(s, ids, New)
    case MineBatch(ids) => s.initialized && NoDuplicates(ids) && AllHaveStatus(s, ids, Sending)
    case PayRefund(id) => s.initialized && HasStatus(s, id, New) && s.transfers[id].Wei() <= s.balance
    case PayWithdrawal(amount) => amount <= s.totalAdminWithdrawableRbtc && amount <= s.balance
    case CopyNonces(oldNonces) => !s.initialized
    case MarkReady => !s.initialized
    case Configure(newConfig) => newConfig.WithinBounds()
    case ForceEther(wei) => s.balance + wei < UINT256
    case OtherLogs(count) => true
    case NextTransaction => true
    case NextBlock => true
  }

  function After(s: State, step: Step): (r: State)
    requires Enabled(s, step)
  {
    match step
    case Deposit(btcAddress, rskAddress, value, _) => AfterDeposit(s, btcAddress, rskAddress, value)
    case PayReclaim(sender, id) =>
      PayBack(Move(s.(reclaimEntered := true), id, Reclaimed), s.transfers[id].Wei())
    case EndReclaim => s.(reclaimEntered := false)
    case CommitBatch(bitcoinTxHash, ids) => AfterCommit(s, bitcoinTxHash, ids)
    case MineBatch(ids) => MoveAll(s, ids, Mined)
    case PayRefund(id) => PayBack(Move(s, id, Refunded), s.transfers[id].Wei())
    case PayWithdrawal(amount) =>
      s.(balance := s.balance - amount,
         totalAdminWithdrawableRbtc := s.totalAdminWithdrawableRbtc - amount,
         history := s.history.(withdrawn := s.history.withdrawn + amount))
    case CopyNonces(oldNonces) => s.(nextNonces := WriteNonces(s.nextNonces, oldNonces))
    case MarkReady => s.(initialized := true)
    case Configure(newConfig) => s.(config := newConfig)
    case ForceEther(wei) => s.(balance := s.balance + wei, history := s.history.(forced := s.history.forced + wei))
    case OtherLogs(count) => s.(clock := s.clock.(logIndex := s.clock.logIndex + count))
    case NextTransaction =>
      s.(clock := s.clock.(txHash := s.clock.txHash + 1, txIndex := s.clock.txIndex + 1))
    case NextBlock =>
      s.(clock := Clock(s.clock.block + 1, s.clock.txHash + 1, 0, 0))
  }

  /** The state right after deployment. */
  predicate IsInitial(s: State) {
    && s.config.WithinBounds()
    && s.clock.logIndex == 0
    && s.transfers == map[] && s.nextNonces == map[] && s.totalAdminWithdrawableRbtc == 0
    && !s.initialized && !s.reclaimEntered
    && s.balance < UINT256
    && s.log == [] && s.history == History(s.balance, 0, 0, [], map[])
  }

  /** `last` is reached from `first` by the given steps. */
  ghost predicate Leads(first: State, steps: seq<Step>, last: State)
    decreases |steps|
  {
    if |steps| == 0 then first == last
    else Enabled(first, steps[0]) && Leads(After(first, steps[0]), steps[1..], last)
  }

  lemma {:induction false} LeadsConcat(a: State, first: seq<Step>, b: State, second: seq<Step>, c: State)
    requires Leads(a, first, b) && Leads(b, second, c)
    ensures Leads(a, first + second, c)
    decreases |first|
  {
    if |first| == 0 {
      assert first + second == second;
    } else {
      LeadsConcat(After(a, first[0]), first[1..], b, second, c);
      assert (first + second)[1..] == first[1..] + second;
    }
  }
}
