/** rsk/utils.ts: reading the log in block ranges, one event kind at a time, and sorting. */
module Events {
  import opened BridgeState

  datatype Kind = NewKind | UpdatedKind | SendingKind

  function KindOf(event: Event): Kind {
    match event
    case NewBitcoinTransfer(_, _, _, _, _, _) => NewKind
    case StatusUpdated(_, _) => UpdatedKind
    case BatchSending(_, _) => SendingKind
  }

  /** Block, transaction index, log index: the order of the comparison function. */
  predicate Before(a: Clock, b: Clock) {
    || a.block < b.block
    || (a.block == b.block && a.txIndex < b.txIndex)
    || (a.block == b.block && a.txIndex == b.txIndex && a.logIndex < b.logIndex)
  }

  predicate InOrder(log: seq<LogEntry>) {
    forall i, j :: 0 <= i < j < |log| ==> Before(log[i].at, log[j].at)
  }

  /** The entries of the blocks `low` to `high`. */
  function InRange(log: seq<LogEntry>, low: int, high: int): (r: seq<LogEntry>) {
    if |log| == 0 then []
    else
      var last := log[|log| - 1];
      InRange(log[..|log| - 1], low, high) + (if low <= last.at.block <= high then [last] else [])
  }

  /** queryFilter: those of one kind. */
  function QueryFilter(log: seq<LogEntry>, kind: Kind, low: int, high: int): (r: seq<LogEntry>) {
    if |log| == 0 then []
    else
      var last := log[|log| - 1];
      QueryFilter(log[..|log| - 1], kind, low, high)
      + (if low <= last.at.block <= high && KindOf(last.event) == kind then [last] else [])
  }

  lemma {:induction false} KindsCoverRange(log: seq<LogEntry>, low: int, high: int)
    ensures multiset(InRange(log, low, high)) ==
      multiset(QueryFilter(log, NewKind, low, high)) + multiset(QueryFilter(log, UpdatedKind, low, high))
      + multiset(QueryFilter(log, SendingKind, low, high))
  {
    if |log| != 0 {
      KindsCoverRange(log[..|log| - 1], low, high);
    }
  }

  lemma {:induction false} RangesAdd(log: seq<LogEntry>, low: int, mid: int, high: int)
    requires low <= mid <= high + 1
    ensures multiset(InRange(log, low, high)) == multiset(InRange(log, low, mid - 1)) + multiset(InRange(log, mid, high))
  {
    if |log| != 0 {
      RangesAdd(log[..|log| - 1], low, mid, high);
    }
  }

  /** In a log in order, consecutive block ranges are consecutive stretches of the log. */
  lemma {:induction false} RangesConcat(log: seq<LogEntry>, low: int, mid: int, high: int)
    requires InOrder(log) && low <= mid <= high + 1
    ensures InRange(log, low, high) == InRange(log, low, mid - 1) + InRange(log, mid, high)
  {
    if |log| != 0 {
      var init, last := log[..|log| - 1], log[|log| - 1];
      RangesConcat(init, low, mid, high);
      if low <= last.at.block < mid {
        forall i | 0 <= i < |init| ensures init[i].at.block < mid {
          assert Before(log[i].at, last.at);
        }
        EmptyRange(init, mid, high);
      }
    }
  }

  lemma {:induction false} EmptyRange(log: seq<LogEntry>, low: int, high: int)
    requires forall i :: 0 <= i < |log| ==> log[i].at.block < low || log[i].at.block > high
    ensures InRange(log, low, high) == []
  {
    if |log| != 0 {
      EmptyRange(log[..|log| - 1], low, high);
    }
  }

  lemma {:induction false} WholeRange(log: seq<LogEntry>, low: int, high: int)
    requires forall i :: 0 <= i < |log| ==> low <= log[i].at.block <= high
    ensures InRange(log, low, high) == log
  {
    if |log| != 0 {
      WholeRange(log[..|log| - 1], low, high);
      assert log == log[..|log| - 1] + [log[|log| - 1]];
    }
  }

  lemma {:induction false} RangeOfConcat(a: seq<LogEntry>, b: seq<LogEntry>, low: int, high: int)
    ensures InRange(a + b, low, high) == InRange(a, low, high) + InRange(b, low, high)
  {
    if |b| == 0 {
      assert a + b == a;
    } else {
      RangeOfConcat(a, b[..|b| - 1], low, high);
      assert (a + b)[..|a + b| - 1] == a + b[..|b| - 1];
    }
  }

  /** A log that only grows by later blocks answers the same range query the same way. */
  lemma {:induction false} RangeOfLonger(log: seq<LogEntry>, longer: seq<LogEntry>, low: int, high: int)
    requires log <= longer
    requires forall i :: |log| <= i < |longer| ==> longer[i].at.block > high
    ensures InRange(longer, low, high) == InRange(log, low, high)
    decreases |longer|
  {
    if |log| < |longer| {
      RangeOfLonger(log, longer[..|longer| - 1], low, high);
    } else {
      assert log == longer;
    }
  }

  lemma {:induction false} InRangeMembers(log: seq<LogEntry>, low: int, high: int)
    ensures forall e :: e in InRange(log, low, high) ==> e in log && low <= e.at.block <= high
    ensures InOrder(log) ==> InOrder(InRange(log, low, high))
  {
    if |log| != 0 {
      var init, last := log[..|log| - 1], log[|log| - 1];
      InRangeMembers(init, low, high);
      var r := InRange(init, low, high);
      if InOrder(log) && low <= last.at.block <= high {
        forall i | 0 <= i < |r| ensures Before(r[i].at, last.at) {
          assert r[i] in init;
          var j :| 0 <= j < |init| && init[j] == r[i];
          assert log[j] == r[i];
        }
      }
    }
  }

  // ---- Sorting ----

  lemma HeadSame(a: seq<LogEntry>, b: seq<LogEntry>)
    requires InOrder(a) && InOrder(b) && multiset(a) == multiset(b) && |a| > 0 && |b| > 0
    ensures a[0] == b[0]
  {
    assert a[0] in multiset(b) && b[0] in multiset(a);
    var i :| 0 <= i < |b| && b[i] == a[0];
    var j :| 0 <= j < |a| && a[j] == b[0];
  }

  /** Entries in order are determined by which entries they are. */
  lemma {:induction false} OrderUnique(a: seq<LogEntry>, b: seq<LogEntry>)
    requires InOrder(a) && InOrder(b) && multiset(a) == multiset(b)
    ensures a == b
    decreases |a|
  {
    assert |a| == |multiset(a)| == |multiset(b)| == |b|;
    if |a| != 0 {
      HeadSame(a, b);
      assert a == [a[0]] + a[1..] && b == [a[0]] + b[1..];
      assert multiset(a[1..]) == multiset(a) - multiset{a[0]};
      assert multiset(b[1..]) == multiset(b) - multiset{a[0]};
      OrderUnique(a[1..], b[1..]);
    }
  }

  /** `events` holds entries of the log, each once. */
  ghost predicate FromLog(events: seq<LogEntry>, sorted: seq<LogEntry>) {
    InOrder(sorted) && multiset(events) == multiset(sorted)
  }

  function InsertSorted(sorted: seq<LogEntry>, e: LogEntry): (r: seq<LogEntry>)
    ensures multiset(r) == multiset(sorted) + multiset{e}
  {
    if |sorted| == 0 then [e]
    else
      var last := sorted[|sorted| - 1];
      assert sorted == sorted[..|sorted| - 1] + [last];
      if Before(e.at, last.at) then InsertSorted(sorted[..|sorted| - 1], e) + [last] else sorted + [e]
  }

  lemma {:induction false} InsertKeepsOrder(sorted: seq<LogEntry>, e: LogEntry)
    requires InOrder(sorted)
    requires forall i :: 0 <= i < |sorted| ==> Before(sorted[i].at, e.at) || Before(e.at, sorted[i].at)
    ensures InOrder(InsertSorted(sorted, e))
  {
    if |sorted| != 0 {
      var init, last := sorted[..|sorted| - 1], sorted[|sorted| - 1];
      if Before(e.at, last.at) {
        InsertKeepsOrder(init, e);
        var r := InsertSorted(init, e);
        forall i | 0 <= i < |r| ensures Before(r[i].at, last.at) {
          assert r[i] in multiset(init) + multiset{e};
          assert r[i] in init || r[i] == e;
        }
      } else {
        forall i | 0 <= i < |sorted| ensures Before(sorted[i].at, e.at) {
          assert i < |sorted| - 1 ==> Before(sorted[i].at, last.at);
        }
      }
    }
  }

  /** The entries of a block range, in any order. */
  ghost predicate HoldsRange(events: seq<LogEntry>, log: seq<LogEntry>, low: int, high: int) {
    multiset(events) == multiset(InRange(log, low, high))
  }

  lemma AppendRange(log: seq<LogEntry>, low: int, mid: int, high: int, a: seq<LogEntry>, b: seq<LogEntry>)
    requires low - 1 <= mid <= high && HoldsRange(a, log, low, mid) && HoldsRange(b, log, mid + 1, high)
    ensures HoldsRange(a + b, log, low, high)
  {
    RangesAdd(log, low, mid + 1, high);
  }

  /** One block range: a query per event kind. */
  method QueryRange(log: seq<LogEntry>, low: int, high: int) returns (events: seq<LogEntry>)
    ensures HoldsRange(events, log, low, high)
  {
    var kinds := [NewKind, UpdatedKind, SendingKind];
    events := [];
    var k := 0;
    while k < |kinds|
      invariant 0 <= k <= 3
      invariant k == 0 ==> events == []
      invariant k == 1 ==> events == QueryFilter(log, NewKind, low, high)
      invariant k == 2 ==> events == QueryFilter(log, NewKind, low, high) + QueryFilter(log, UpdatedKind, low, high)
      invariant k == 3 ==> events == QueryFilter(log, NewKind, low, high) + QueryFilter(log, UpdatedKind, low, high)
                                   + QueryFilter(log, SendingKind, low, high)
    {
      events := events + QueryFilter(log, kinds[k], low, high);
      k := k + 1;
    }
    KindsCoverRange(log, low, high);
  }

  /** The events of the range, whatever the batch size: none lost, none twice, in chain order. */
  method GetEvents(log: seq<LogEntry>, first: int, toBlock: int, batchSize: nat) returns (events: seq<LogEntry>)
    requires batchSize >= 1 && InOrder(log)
    ensures events == InRange(log, first, toBlock)
  {
    var gathered := QueryRanges(log, first, toBlock, batchSize);
    InRangeMembers(log, first, toBlock);
    events := Sort(gathered, InRange(log, first, toBlock));
  }

  method QueryRanges(log: seq<LogEntry>, first: int, toBlock: int, batchSize: nat) returns (events: seq<LogEntry>)
    requires batchSize >= 1
    ensures HoldsRange(events, log, first, toBlock)
  {
    events := [];
    var fromBlock := first;
    EmptyRangeBackwards(log, first, first - 1);
    ghost var done := first - 1;  // everything up to here is gathered
    while fromBlock <= toBlock
      invariant first <= fromBlock && (fromBlock <= toBlock + 1 || fromBlock == first)
      invariant done == fromBlock - 1
      invariant HoldsRange(events, log, first, done)
      decreases toBlock - fromBlock
    {
      var batchToBlock := if toBlock < fromBlock + batchSize - 1 then toBlock else fromBlock + batchSize - 1;
      var eventBatch := QueryRange(log, fromBlock, batchToBlock);
      AppendRange(log, first, done, batchToBlock, events, eventBatch);
      events := events + eventBatch;
      done := batchToBlock;
      fromBlock := batchToBlock + 1;
    }
    if first > toBlock {
      EmptyRangeBackwards(log, first, toBlock);
    }
  }

  lemma EmptyRangeBackwards(log: seq<LogEntry>, low: int, high: int)
    requires low > high
    ensures InRange(log, low, high) == []
  {
    EmptyRange(log, low, high);
  }

  /** events.sort with the comparison above.  `sorted` is the same entries in chain order. */
  method Sort(events: seq<LogEntry>, ghost sorted: seq<LogEntry>) returns (r: seq<LogEntry>)
    requires FromLog(events, sorted)
    ensures r == sorted
  {
    r := [];
    var i := 0;
    while i < |events|
      invariant 0 <= i <= |events|
      invariant InOrder(r) && multiset(r) == multiset(events[..i])
    {
      assert events[..i + 1] == events[..i] + [events[i]];
      Comparable(events, sorted, i, r);
      InsertKeepsOrder(r, events[i]);
      r := InsertSorted(r, events[i]);
      i := i + 1;
    }
    assert events[..i] == events;
    OrderUnique(r, sorted);
  }

  /** No two positions of the input are the same place in the chain. */
  lemma Comparable(events: seq<LogEntry>, sorted: seq<LogEntry>, i: nat, r: seq<LogEntry>)
    requires FromLog(events, sorted) && i < |events| && multiset(r) == multiset(events[..i])
    ensures forall k :: 0 <= k < |r| ==> Before(r[k].at, events[i].at) || Before(events[i].at, r[k].at)
  {
    var e := events[i];
    forall k | 0 <= k < |r| ensures Before(r[k].at, e.at) || Before(e.at, r[k].at) {
      assert r[k] in multiset(events[..i]);
      assert events == events[..i] + [e] + events[i + 1..];
      assert multiset(events) == multiset(events[..i]) + multiset{e} + multiset(events[i + 1..]);
      assert multiset(sorted)[r[k]] == multiset(events)[r[k]] && multiset(sorted)[e] == multiset(events)[e];
      assert r[k] in multiset(sorted) && e in multiset(sorted);
      OnceEach(sorted, e);
      assert r[k] != e;
      var a :| 0 <= a < |sorted| && sorted[a] == r[k];
      var b :| 0 <= b < |sorted| && sorted[b] == e;
    }
  }

  /** Entries in order are all different. */
  lemma {:induction false} OnceEach(sorted: seq<LogEntry>, e: LogEntry)
    requires InOrder(sorted)
    ensures multiset(sorted)[e] <= 1
  {
    if |sorted| != 0 {
      var init, last := sorted[..|sorted| - 1], sorted[|sorted| - 1];
      assert sorted == init + [last];
      OnceEach(init, e);
      assert forall i :: 0 <= i < |init| ==> init[i] == sorted[i] && Before(init[i].at, last.at);
      assert last !in init;
    }
  }
}
