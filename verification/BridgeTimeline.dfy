/** The contract block by block: what its state was at the end of each block, and what a block range of
    the log says about that. */
module BridgeTimeline {
  import opened BridgeState
  import opened BridgeInvariants
  import opened BridgeLog
  import opened Events

  /** `states[b]` is the contract at the end of block `b`; the last one is the block being built. */
  ghost predicate Timeline(states: seq<State>) {
    && |states| > 0
    && states[|states| - 1].clock.block == |states| - 1
    && (forall b :: 0 <= b < |states| ==> Reachable(states[b]))
    && (forall b, i :: 0 <= b < |states| && 0 <= i < |states[b].log| ==> states[b].log[i].at.block <= b)
    && (forall b, c :: 0 <= b < c < |states| ==> Succeeds(states[b], states[c], b))
  }

  /** `t` is a later state than `s`, the state at the end of block `b`. */
  ghost predicate Succeeds(s: State, t: State, b: nat) {
    && Evolves(s, t)
    && forall i :: |s.log| <= i < |t.log| ==> t.log[i].at.block > b
  }

  lemma {:induction false} SameBlock(s: State, steps: seq<Step>, t: State)
    requires Leads(s, steps, t) && forall i :: 0 <= i < |steps| ==> !steps[i].NextBlock?
    ensures t.clock.block == s.clock.block
    decreases |steps|
  {
    if |steps| != 0 {
      SameBlock(After(s, steps[0]), steps[1..], t);
    }
  }

  lemma SucceedsTrans(s: State, t: State, u: State, b: nat)
    requires Succeeds(s, t, b) && Evolves(t, u)
    requires forall i :: |t.log| <= i < |u.log| ==> u.log[i].at.block > b
    ensures Succeeds(s, u, b)
  {
    EvolvesTrans(s, t, u);
    assert forall i :: |s.log| <= i < |t.log| ==> u.log[i] == t.log[i];
  }

  lemma LogUpToNow(s: State)
    requires Reachable(s)
    ensures forall i :: 0 <= i < |s.log| ==> s.log[i].at.block <= s.clock.block
  {
    ReachableOrdered(s);
  }

  /** More steps in the current block. */
  lemma TimelineContinues(states: seq<State>, steps: seq<Step>, t: State)
    requires Timeline(states)
    requires Leads(states[|states| - 1], steps, t) && t.clock.block == |states| - 1
    ensures Timeline(states[|states| - 1 := t])
  {
    hide Reachable, Leads, Inv, Forward;
    var last := |states| - 1;
    var s := states[last];
    var r := states[last := t];
    ReachableLeads(s, steps, t);
    ReachableInv(s);
    EvolvesLeads(s, steps, t);
    NewEntriesLater(s, steps, t);
    LogUpToNow(t);
    forall b, c | 0 <= b < c < |r| ensures Succeeds(r[b], r[c], b) {
      assert Succeeds(states[b], states[c], b);
      if c == last {
        SucceedsTrans(states[b], s, t, b);
      }
    }
  }

  lemma TimelineGrows(states: seq<State>)
    requires Timeline(states)
    ensures Timeline(states + [After(states[|states| - 1], NextBlock)])
  {
    var last := |states| - 1;
    var s := states[last];
    var t := After(s, NextBlock);
    var r := states + [t];
    ReachableStep(s, NextBlock);
    ReachableInv(s);
    EvolvesStep(s, NextBlock);
    forall b, c | 0 <= b < c < |r| ensures Succeeds(r[b], r[c], b) {
      if c < |states| {
        assert Succeeds(states[b], states[c], b);
      } else if b < last {
        assert Succeeds(states[b], s, b);
        SucceedsTrans(states[b], s, t, b);
      }
    }
  }

  lemma StretchIsRange(a: seq<LogEntry>, b: seq<LogEntry>, c: seq<LogEntry>, low: int, high: int)
    requires a <= b <= c
    requires forall i :: 0 <= i < |a| ==> a[i].at.block <= low
    requires forall i :: |a| <= i < |b| ==> low < b[i].at.block <= high
    requires forall i :: |b| <= i < |c| ==> c[i].at.block > high
    ensures b == a + InRange(c, low + 1, high)
  {
    hide InRange;
    var mid := b[|a|..];
    assert b == a + mid;
    RangeOfLonger(b, c, low + 1, high);
    RangeOfConcat(a, mid, low + 1, high);
    EmptyRange(a, low + 1, high);
    WholeRange(mid, low + 1, high);
  }

  /** A block range of the log is the difference of the states at its ends. */
  lemma RangeIsDifference(states: seq<State>, low: nat, high: nat, now: nat)
    requires Timeline(states) && low <= high <= now < |states|
    ensures states[high].log == states[low].log + InRange(states[now].log, low + 1, high)
  {
    hide Reachable, Forward, InRange;
    assert low < high ==> Succeeds(states[low], states[high], low);
    assert high < now ==> Succeeds(states[high], states[now], high);
    StretchIsRange(states[low].log, states[high].log, states[now].log, low, high);
  }

  lemma LastIsReachable(states: seq<State>)
    requires Timeline(states)
    ensures |states| > 0 && Reachable(states[|states| - 1])
  {
  }
}
