/** The event log: it is written in chain order, and the deposits it records are all accounted for. */
module BridgeLog {
  import opened TransferIds
  import opened BridgeState
  import opened BridgeInvariants
  import opened Events

  // ---- Chain order ----

  ghost predicate LogOrdered(s: State) {
    InOrder(s.log) && forall i :: 0 <= i < |s.log| ==> Before(s.log[i].at, s.clock)
  }

  lemma AppendOrdered(log: seq<LogEntry>, entries: seq<LogEntry>, at: Clock)
    requires InOrder(log) && forall i :: 0 <= i < |log| ==> Before(log[i].at, at)
    requires forall i :: 0 <= i < |entries| ==> entries[i].at == at.(logIndex := at.logIndex + i)
    ensures InOrder(log + entries)
    ensures forall i :: 0 <= i < |log + entries| ==>
      Before((log + entries)[i].at, at.(logIndex := at.logIndex + |entries|))
      || (log + entries)[i].at == at.(logIndex := at.logIndex + |entries|)
    ensures |entries| > 0 ==> forall i :: 0 <= i < |log + entries| ==>
      Before((log + entries)[i].at, at.(logIndex := at.logIndex + |entries|))
  {
  }

  lemma OrderedEntries(s: State, t: State, entries: seq<LogEntry>)
    requires LogOrdered(s) && t.log == s.log + entries
    requires forall i :: 0 <= i < |entries| ==> entries[i].at == s.clock.(logIndex := s.clock.logIndex + i)
    requires t.clock == s.clock.(logIndex := s.clock.logIndex + |entries|)
    ensures LogOrdered(t)
  {
    AppendOrdered(s.log, entries, s.clock);
    if |entries| == 0 {
      assert t.log == s.log && t.clock == s.clock;
    }
  }

  lemma LaterOrdered(s: State, t: State)
    requires LogOrdered(s) && t.log == s.log && (t.clock == s.clock || Before(s.clock, t.clock))
    ensures LogOrdered(t)
  {
  }

  lemma OrderedStep(s: State, step: Step)
    requires LogOrdered(s) && Enabled(s, step)
    ensures LogOrdered(After(s, step))
  {
    var t := After(s, step);
    match step
    case Deposit(_, _, _, _) => OrderedEntries(s, t, [t.log[|s.log|]]);
    case PayReclaim(_, id) => OrderedEntries(s, t, [t.log[|s.log|]]);
    case PayRefund(id) => OrderedEntries(s, t, [t.log[|s.log|]]);
    case MineBatch(ids) => OrderedEntries(s, t, UpdateEntries(s.clock, ids, Mined));
    case CommitBatch(hash, ids) =>
      var e := Emit(s, BatchSending(hash, |ids| % 256));
      OrderedEntries(s, e, [e.log[|s.log|]]);
      OrderedEntries(e, t, UpdateEntries(e.clock, ids, Sending));
    case _ => LaterOrdered(s, t);
  }

  /** Steps inside one transaction only write to the current block. */
  lemma NewEntriesNow(s: State, step: Step)
    requires Enabled(s, step)
    ensures var t := After(s, step);
      && s.log <= t.log
      && t.clock.block >= s.clock.block
      && forall i :: |s.log| <= i < |t.log| ==> t.log[i].at.block == s.clock.block
  {
  }

  lemma {:induction false} OrderedLeads(s: State, steps: seq<Step>, t: State)
    requires LogOrdered(s) && Leads(s, steps, t)
    ensures LogOrdered(t)
    decreases |steps|
  {
    if |steps| != 0 {
      OrderedStep(s, steps[0]);
      OrderedLeads(After(s, steps[0]), steps[1..], t);
    }
  }

  lemma {:induction false} NewEntriesLater(s: State, steps: seq<Step>, t: State)
    requires Leads(s, steps, t)
    ensures s.log <= t.log && t.clock.block >= s.clock.block
    ensures forall i :: |s.log| <= i < |t.log| ==> t.log[i].at.block >= s.clock.block
    decreases |steps|
  {
    if |steps| != 0 {
      NewEntriesNow(s, steps[0]);
      NewEntriesLater(After(s, steps[0]), steps[1..], t);
    }
  }

  lemma ReachableOrdered(s: State)
    requires Reachable(s)
    ensures LogOrdered(s)
  {
    var first: State, steps: seq<Step> :| IsInitial(first) && Leads(first, steps, s);
    OrderedLeads(first, steps, s);
  }

  // ---- Conservation of the deposits ----

  /** Satoshi of all the deposits in the log, fees included. */
  function Deposited(log: seq<LogEntry>): (satoshi: nat) {
    if |log| == 0 then 0
    else
      var e := log[|log| - 1].event;
      Deposited(log[..|log| - 1]) + (if e.NewBitcoinTransfer? then e.amountSatoshi + e.feeSatoshi else 0)
  }

  function EventWei(log: seq<LogEntry>): (wei: nat) {
    Deposited(log) * SATOSHI_DIVISOR
  }

  lemma {:induction false} NoDeposits(log: seq<LogEntry>, entries: seq<LogEntry>)
    requires forall i :: 0 <= i < |entries| ==> !entries[i].event.NewBitcoinTransfer?
    ensures Deposited(log + entries) == Deposited(log)
  {
    if |entries| == 0 {
      assert log + entries == log;
    } else {
      NoDeposits(log, entries[..|entries| - 1]);
      assert (log + entries)[..|log + entries| - 1] == log + entries[..|entries| - 1];
    }
  }

  ghost predicate Accounted(s: State) {
    EventWei(s.log) + s.history.forced == s.balance + s.history.withdrawn + s.history.returned
  }

  lemma AccountedDeposit(s: State, step: Step)
    requires Accounted(s) && Enabled(s, step) && step.Deposit?
    ensures Accounted(After(s, step))
  {
    assert After(s, step).log[..|s.log|] == s.log;
  }

  lemma QuietStep(s: State, step: Step)
    requires Enabled(s, step) && !step.Deposit?
    ensures s.log <= After(s, step).log
    ensures forall i :: |s.log| <= i < |After(s, step).log| ==> !After(s, step).log[i].event.NewBitcoinTransfer?
  {
  }

  lemma OthersAccounted(s: State, step: Step)
    requires Enabled(s, step) && !step.Deposit?
    ensures var t := After(s, step);
      t.balance + t.history.withdrawn + t.history.returned - t.history.forced
      == s.balance + s.history.withdrawn + s.history.returned - s.history.forced
  {
  }

  lemma AccountedStep(s: State, step: Step)
    requires Accounted(s) && Enabled(s, step)
    ensures Accounted(After(s, step))
  {
    if step.Deposit? {
      AccountedDeposit(s, step);
    } else {
      var log := After(s, step).log;
      QuietStep(s, step);
      assert log == s.log + log[|s.log|..];
      NoDeposits(s.log, log[|s.log|..]);
      OthersAccounted(s, step);
    }
  }

  lemma {:induction false} AccountedLeads(s: State, steps: seq<Step>, t: State)
    requires Accounted(s) && Leads(s, steps, t)
    ensures Accounted(t)
    decreases |steps|
  {
    if |steps| != 0 {
      AccountedStep(s, steps[0]);
      AccountedLeads(After(s, steps[0]), steps[1..], t);
    }
  }

  /** At every moment, inside callbacks too: every satoshi that the log shows as deposited is still
      waiting, has been promised to Bitcoin (and is withdrawable or withdrawn), or was paid back. */
  lemma Conservation(s: State)
    requires Reachable(s)
    ensures s.balance >= Held(s.transfers, Pending) + s.totalAdminWithdrawableRbtc
    ensures EventWei(s.log) == Held(s.transfers, Pending) + Held(s.transfers, Committed) + Held(s.transfers, Returned)
    ensures s.totalAdminWithdrawableRbtc + s.history.withdrawn == Held(s.transfers, Committed)
    ensures s.history.returned == Held(s.transfers, Returned)
    ensures EventWei(s.log) + s.history.forced == s.balance + s.history.withdrawn + s.history.returned
  {
    ReachableInv(s);
    var first: State, steps: seq<Step> :| IsInitial(first) && Leads(first, steps, s);
    AccountedLeads(first, steps, s);
  }

  // ---- Transfers and their deposits ----

  /** The entry of the log that announced the transfer. */
  ghost predicate Announces(e: LogEntry, id: TransferId, t: BitcoinTransfer) {
    && e.event.NewBitcoinTransfer? && e.event.id == id
    && e.event.btcAddress == t.btcAddress && e.event.nonce == t.nonce && e.event.rskAddress == t.rskAddress
    && e.event.amountSatoshi + e.event.feeSatoshi == t.totalAmountSatoshi
    && e.at.block % UINT32 == t.blockNumber
  }

  ghost predicate Announced(s: State) {
    && (forall id :: id in s.transfers ==> exists i :: 0 <= i < |s.log| && Announces(s.log[i], id, s.transfers[id]))
    && (forall i :: 0 <= i < |s.log| && s.log[i].event.NewBitcoinTransfer? ==>
          s.log[i].event.id in s.transfers && Announces(s.log[i], s.log[i].event.id, s.transfers[s.log[i].event.id]))
  }

  lemma DepositAnnounces(s: State, step: Step)
    requires Fresh(s) && Enabled(s, step) && step.Deposit?
    ensures var t := After(s, step);
      && |t.log| == |s.log| + 1 && t.log[..|s.log|] == s.log
      && var e := t.log[|s.log|];
      && e.event.NewBitcoinTransfer? && e.event.id !in s.transfers && e.event.id in t.transfers
      && t.transfers == s.transfers[e.event.id := t.transfers[e.event.id]]
      && Announces(e, e.event.id, t.transfers[e.event.id])
  {
  }

  lemma AnnouncedDeposit(s: State, t: State)
    requires Announced(s) && |t.log| == |s.log| + 1 && t.log[..|s.log|] == s.log
    requires var e := t.log[|s.log|];
      && e.event.NewBitcoinTransfer? && e.event.id !in s.transfers && e.event.id in t.transfers
      && t.transfers == s.transfers[e.event.id := t.transfers[e.event.id]]
      && Announces(e, e.event.id, t.transfers[e.event.id])
    ensures Announced(t)
  {
    hide Announces;
    var n, id := |s.log|, t.log[|s.log|].event.id;
    forall k | k in t.transfers ensures exists i :: 0 <= i < |t.log| && Announces(t.log[i], k, t.transfers[k]) {
      if k == id {
        assert Announces(t.log[n], k, t.transfers[k]);
      } else {
        var i :| 0 <= i < |s.log| && Announces(s.log[i], k, s.transfers[k]);
        assert t.log[..n][i] == t.log[i];
        assert Announces(t.log[i], k, t.transfers[k]);
      }
    }
    assert forall i :: 0 <= i < n ==> t.log[i] == t.log[..n][i] == s.log[i];
  }

  lemma StatusKeepsAnnouncement(e: LogEntry, id: TransferId, a: BitcoinTransfer, b: BitcoinTransfer)
    requires Announces(e, id, a) && b == a.(status := b.status)
    ensures Announces(e, id, b)
  {
  }

  lemma AnnouncedStays(s: State, t: State)
    requires Announced(s) && s.log <= t.log && t.transfers.Keys == s.transfers.Keys && Forward(s.transfers, t.transfers)
    requires forall i :: |s.log| <= i < |t.log| ==> !t.log[i].event.NewBitcoinTransfer?
    ensures Announced(t)
  {
    hide Allowed, Announces;
    forall k | k in t.transfers ensures exists i :: 0 <= i < |t.log| && Announces(t.log[i], k, t.transfers[k]) {
      var i :| 0 <= i < |s.log| && Announces(s.log[i], k, s.transfers[k]);
      StatusKeepsAnnouncement(s.log[i], k, s.transfers[k], t.transfers[k]);
      assert Announces(t.log[i], k, t.transfers[k]);
    }
    forall i | 0 <= i < |t.log| && t.log[i].event.NewBitcoinTransfer?
      ensures t.log[i].event.id in t.transfers && Announces(t.log[i], t.log[i].event.id, t.transfers[t.log[i].event.id])
    {
      var id := s.log[i].event.id;
      StatusKeepsAnnouncement(s.log[i], id, s.transfers[id], t.transfers[id]);
    }
  }

  lemma {:induction false} AnnouncedLeads(s: State, steps: seq<Step>, t: State)
    requires Inv(s) && Announced(s) && Leads(s, steps, t)
    ensures Announced(t)
    decreases |steps|
  {
    if |steps| != 0 {
      var next := After(s, steps[0]);
      InvStep(s, steps[0]);
      if steps[0].Deposit? {
        DepositAnnounces(s, steps[0]);
        AnnouncedDeposit(s, next);
      } else {
        StepForward(s, steps[0]);
        QuietStep(s, steps[0]);
        AnnouncedStays(s, next);
      }
      hide Inv, Enabled, After, Announced;
      AnnouncedLeads(next, steps[1..], t);
    }
  }

  /** Every transfer was announced by a deposit in the log, with its address, nonce, owner, total amount and block, and
      every deposit in the log is a transfer. */
  lemma ReachableAnnounced(s: State)
    requires Reachable(s)
    ensures Announced(s)
  {
    var first: State, steps: seq<Step> :| IsInitial(first) && Leads(first, steps, s);
    InitialInv(first);
    AnnouncedLeads(first, steps, s);
  }
}
