/** utils/nodevalues.ts: one value per node, and the most popular of them. */
module NodeVotes {
  import opened Base

  // ---- The order of strings and of counted values ----

  /** The order of the < operator on strings. */
  predicate Less(a: string, b: string) {
    if |b| == 0 then false
    else if |a| == 0 then true
    else a[0] < b[0] || (a[0] == b[0] && Less(a[1..], b[1..]))
  }

  lemma {:induction false} LessTotal(a: string, b: string)
    ensures a == b <==> !Less(a, b) && !Less(b, a)
    ensures !(Less(a, b) && Less(b, a))
  {
    if |a| > 0 && |b| > 0 {
      LessTotal(a[1..], b[1..]);
      assert a == [a[0]] + a[1..] && b == [b[0]] + b[1..];
    }
  }

  lemma {:induction false} LessTransitive(a: string, b: string, c: string)
    requires Less(a, b) && Less(b, c)
    ensures Less(a, c)
  {
    if |a| > 0 && a[0] == b[0] == c[0] {
      LessTransitive(a[1..], b[1..], c[1..]);
    }
  }

  /** After a common start the first characters that differ decide, by their code units. */
  lemma {:induction false} LessAtDifference(p: string, x: char, s: string, y: char, t: string)
    requires x != y
    ensures Less(p + [x] + s, p + [y] + t) <==> x < y
  {
    var a, b := p + [x] + s, p + [y] + t;
    if |p| > 0 {
      LessAtDifference(p[1..], x, s, y, t);
      assert a[1..] == p[1..] + [x] + s && b[1..] == p[1..] + [y] + t;
    }
  }

  /** A proper start of a string comes before it. */
  lemma {:induction false} LessPrefix(p: string, t: string)
    requires t != ""
    ensures Less(p, p + t) && !Less(p + t, p)
  {
    if |p| > 0 {
      LessPrefix(p[1..], t);
      assert (p + t)[1..] == p[1..] + t;
    }
  }

  /** Any two different strings are of one of these forms, so the two laws say what Less is. */
  lemma {:induction false} FirstDifference(a: string, b: string) returns (p: string)
    requires a != b
    ensures p <= a && p <= b
    ensures |p| == |a| || |p| == |b| || a[|p|] != b[|p|]
    ensures Less(a, b) <==> |p| < |b| && (|p| == |a| || a[|p|] < b[|p|])
  {
    if |a| == 0 || |b| == 0 || a[0] != b[0] {
      p := "";
    } else {
      var q := FirstDifference(a[1..], b[1..]);
      p := [a[0]] + q;
    }
    var s, t := a[|p|..], b[|p|..];
    assert a == p + s && b == p + t;
    if s == "" {
      LessPrefix(p, t);
    } else if t == "" {
      LessPrefix(p, s);
    } else {
      assert s == [s[0]] + s[1..] && t == [t[0]] + t[1..];
      assert a == p + [s[0]] + s[1..] && b == p + [t[0]] + t[1..];
      LessAtDifference(p, s[0], s[1..], t[0], t[1..]);
    }
  }

  datatype Entry = Entry(id: string, votes: nat)

  /** More votes first, then the smaller id. */
  predicate Precedes(a: Entry, b: Entry) {
    a.votes > b.votes || (a.votes == b.votes && Less(a.id, b.id))
  }

  lemma NotPrecedesTransitive(a: Entry, b: Entry, c: Entry)
    requires !Precedes(a, b) && !Precedes(b, c)
    ensures !Precedes(a, c)
  {
    hide Less;
    LessTotal(a.id, b.id);
    LessTotal(b.id, c.id);
    LessTotal(a.id, c.id);
    if Less(c.id, b.id) && Less(b.id, a.id) {
      LessTransitive(c.id, b.id, a.id);
    }
  }

  predicate Ranked(s: seq<Entry>) {
    forall i, j :: 0 <= i < j < |s| ==> !Precedes(s[j], s[i])
  }

  function Insert(s: seq<Entry>, e: Entry): (r: seq<Entry>)
    ensures multiset(r) == multiset(s) + multiset{e}
  {
    if |s| == 0 then [e]
    else
      var init, last := s[..|s| - 1], s[|s| - 1];
      assert s == init + [last];
      if Precedes(e, last) then Insert(init, e) + [last] else s + [e]
  }

  lemma {:induction false} InsertRanks(s: seq<Entry>, e: Entry)
    requires Ranked(s)
    ensures Ranked(Insert(s, e))
  {
    hide Precedes;
    if |s| > 0 {
      var init, last := s[..|s| - 1], s[|s| - 1];
      if Precedes(e, last) {
        InsertRanks(init, e);
        var r := Insert(init, e);
        forall i | 0 <= i < |r| ensures !Precedes(last, r[i]) {
          assert r[i] in multiset(init) + multiset{e};
          if r[i] == e {
            PrecedesAsymmetric(e, last);
          } else {
            assert r[i] in init;
          }
        }
      } else {
        forall i | 0 <= i < |s| ensures !Precedes(e, s[i]) {
          if i < |s| - 1 {
            NotPrecedesTransitive(e, last, s[i]);
          }
        }
      }
    }
  }

  lemma PrecedesAsymmetric(a: Entry, b: Entry)
    requires Precedes(a, b)
    ensures !Precedes(b, a)
  {
    hide Less;
    LessTotal(a.id, b.id);
  }

  /** Array.sort with the comparison above. */
  method Sort(entries: seq<Entry>) returns (sorted: seq<Entry>)
    ensures Ranked(sorted) && multiset(sorted) == multiset(entries)
  {
    sorted := [];
    var i := 0;
    while i < |entries|
      invariant 0 <= i <= |entries|
      invariant Ranked(sorted) && multiset(sorted) == multiset(entries[..i])
    {
      InsertRanks(sorted, entries[i]);
      sorted := Insert(sorted, entries[i]);
      assert entries[..i + 1] == entries[..i] + [entries[i]];
      i := i + 1;
    }
    assert entries[..i] == entries;
  }

  // ---- The table ----

  datatype NodeValue = NodeValue(nodeId: string, value: string)

  type Table = map<string, string>

  function TableOf(entries: seq<NodeValue>): (m: Table) {
    if |entries| == 0 then map[]
    else TableOf(entries[..|entries| - 1])[entries[|entries| - 1].nodeId := entries[|entries| - 1].value]
  }

  predicate DistinctNodes(entries: seq<NodeValue>) {
    forall i, j :: 0 <= i < j < |entries| ==> entries[i].nodeId != entries[j].nodeId
  }

  lemma {:induction false} TableHolds(entries: seq<NodeValue>)
    requires DistinctNodes(entries)
    ensures forall i :: 0 <= i < |entries| ==>
      entries[i].nodeId in TableOf(entries) && TableOf(entries)[entries[i].nodeId] == entries[i].value
    ensures forall k :: k in TableOf(entries) ==> exists i :: 0 <= i < |entries| && entries[i].nodeId == k
  {
    if |entries| > 0 {
      var init := entries[..|entries| - 1];
      TableHolds(init);
      forall k | k in TableOf(entries) ensures exists i :: 0 <= i < |entries| && entries[i].nodeId == k {
        if k == entries[|entries| - 1].nodeId {
        } else {
          var i :| 0 <= i < |init| && init[i].nodeId == k;
          assert entries[i].nodeId == k;
        }
      }
    }
  }

  /** The nodes that hold value `v`. */
  function Voters(m: Table, v: string): (nodes: set<string>) {
    set k | k in m && m[k] == v
  }

  /** Most votes, and the least such value. */
  ghost predicate IsMostPopular(m: Table, v: string) {
    && v in m.Values
    && forall w :: w in m.Values && w != v ==> Precedes(Entry(v, |Voters(m, v)|), Entry(w, |Voters(m, w)|))
  }

  /** There is at most one such value, so the order in which nodes answered is irrelevant. */
  lemma MostPopularUnique(m: Table, v: string, w: string)
    requires IsMostPopular(m, v) && IsMostPopular(m, w)
    ensures v == w
  {
    if v != w {
      PrecedesAsymmetric(Entry(v, |Voters(m, v)|), Entry(w, |Voters(m, w)|));
    }
  }

  /** In votes: nobody has more, and of those with as many it is the least. */
  lemma MostVotes(m: Table, v: string)
    ensures IsMostPopular(m, v) <==>
      && v in m.Values
      && forall w :: w in m.Values && w != v ==>
           |Voters(m, w)| < |Voters(m, v)| || (|Voters(m, w)| == |Voters(m, v)| && Less(v, w))
  {
    hide Less, Voters;
  }

  class NodeValues {
    var entries: seq<NodeValue>

    constructor ()
      ensures Valid() && Contents() == map[]
    {
      entries := [];
    }

    ghost predicate Valid()
      reads this
    {
      DistinctNodes(entries)
    }

    ghost function Contents(): (m: Table)
      reads this
    {
      TableOf(entries)
    }

    method FindNode(nodeId: string) returns (index: int)
      requires Valid()
      ensures -1 <= index < |entries|
      ensures index >= 0 ==> entries[index].nodeId == nodeId
      ensures index == -1 <==> nodeId !in Contents()
    {
      TableHolds(entries);
      index := 0;
      while index < |entries|
        invariant 0 <= index <= |entries|
        invariant forall k :: 0 <= k < index ==> entries[k].nodeId != nodeId
      {
        if entries[index].nodeId == nodeId {
          return;
        }
        index := index + 1;
      }
      index := -1;
    }

    method GetNodeValue(nodeId: string) returns (value: Option<string>)
      requires Valid()
      ensures value == if nodeId in Contents() then Some(Contents()[nodeId]) else None
    {
      var index := FindNode(nodeId);
      TableHolds(entries);
      value := if index == -1 then None else Some(entries[index].value);
    }

    method SetNodeValue(nodeId: string, value: Option<string>)
      requires Valid()
      modifies this
      ensures Valid()
      ensures Contents() == if value.None? then old(Contents()) - {nodeId} else old(Contents())[nodeId := value.value]
    {
      if value.None? {
        DeleteNodeValue(nodeId);
      } else {
        var index := FindNode(nodeId);
        if index == -1 {
          TableHolds(entries);
          entries := entries + [NodeValue(nodeId, value.value)];
          assert entries[..|entries| - 1] == old(entries);
        } else {
          ReplaceEntry(entries, index, value.value);
          entries := entries[index := NodeValue(nodeId, value.value)];
        }
      }
    }

    method DeleteNodeValue(nodeId: string)
      requires Valid()
      modifies this
      ensures Valid()
      ensures Contents() == old(Contents()) - {nodeId}
    {
      var index := FindNode(nodeId);
      if index != -1 {
        RemoveEntry(entries, index);
        entries := entries[..index] + entries[index + 1..];
      }
    }

    /** None when there are no values. */
    method GetMostPopularValue() returns (value: Option<string>)
      requires Valid()
      ensures value.None? <==> Contents() == map[]
      ensures value.Some? ==> IsMostPopular(Contents(), value.value)
    {
      var votes := CountVotes(entries);
      var sorted := Sort(votes);
      if |sorted| == 0 {
        assert |multiset(votes)| == 0;
        return None;
      }
      FirstIsMostPopular(entries, votes, sorted);
      return Some(sorted[0].id);
    }
  }

  lemma {:induction false} ReplaceEntry(entries: seq<NodeValue>, index: nat, value: string)
    requires index < |entries| && DistinctNodes(entries)
    ensures TableOf(entries[index := NodeValue(entries[index].nodeId, value)]) == TableOf(entries)[entries[index].nodeId := value]
  {
    var n := |entries| - 1;
    var changed := entries[index := NodeValue(entries[index].nodeId, value)];
    if index == n {
      assert changed[..n] == entries[..n];
    } else {
      ReplaceEntry(entries[..n], index, value);
      assert changed[..n] == entries[..n][index := NodeValue(entries[index].nodeId, value)];
    }
  }

  lemma {:induction false} RemoveEntry(entries: seq<NodeValue>, index: nat)
    requires index < |entries| && DistinctNodes(entries)
    ensures TableOf(entries[..index] + entries[index + 1..]) == TableOf(entries) - {entries[index].nodeId}
  {
    var n := |entries| - 1;
    var init, changed := entries[..n], entries[..index] + entries[index + 1..];
    if index == n {
      assert changed == init;
      TableNext(entries, n);
      assert entries[..n + 1] == entries;
    } else {
      RemoveEntry(init, index);
      RemoveBeforeLast(entries, index);
    }
  }

  lemma RemoveBeforeLast<T>(s: seq<T>, index: nat)
    requires index < |s| - 1
    ensures var n, changed := |s| - 1, s[..index] + s[index + 1..];
      changed[..|changed| - 1] == s[..n][..index] + s[..n][index + 1..] && changed[|changed| - 1] == s[n]
  {
  }

  // ---- Counting ----

  /** `votes` lists each value of the table once, with the number of its voters. */
  ghost predicate Counts(votes: seq<Entry>, m: Table) {
    && (forall i, j :: 0 <= i < j < |votes| ==> votes[i].id != votes[j].id)
    && (forall i :: 0 <= i < |votes| ==> votes[i].id in m.Values && votes[i].votes == |Voters(m, votes[i].id)|)
    && (forall v :: v in m.Values ==> exists i :: 0 <= i < |votes| && votes[i].id == v)
  }

  method CountVotes(entries: seq<NodeValue>) returns (votes: seq<Entry>)
    requires DistinctNodes(entries)
    ensures Counts(votes, TableOf(entries))
  {
    hide Counts, TableOf, DistinctNodes;
    votes := [];
    NothingCounted();
    var i := 0;
    assert entries[..i] == [];
    while i < |entries|
      invariant 0 <= i <= |entries|
      invariant Counts(votes, TableOf(entries[..i]))
    {
      var value := entries[i].value;
      var j := 0;
      while j < |votes| && votes[j].id != value
        invariant 0 <= j <= |votes|
        invariant forall k :: 0 <= k < j ==> votes[k].id != value
      {
        j := j + 1;
      }
      TableNext(entries, i);
      CountOne(votes, TableOf(entries[..i]), entries[i].nodeId, value, j);
      if j == |votes| {
        votes := votes + [Entry(value, 1)];
      } else {
        votes := votes[j := Entry(value, votes[j].votes + 1)];
      }
      i := i + 1;
    }
    assert entries[..i] == entries;
  }

  lemma NothingCounted()
    ensures Counts([], TableOf([]))
  {
  }

  lemma TableNext(entries: seq<NodeValue>, i: nat)
    requires DistinctNodes(entries) && i < |entries|
    ensures entries[i].nodeId !in TableOf(entries[..i])
    ensures TableOf(entries[..i + 1]) == TableOf(entries[..i])[entries[i].nodeId := entries[i].value]
  {
    assert entries[..i + 1][..i] == entries[..i];
    TableHolds(entries[..i]);
  }

  lemma VotersGrow(m: Table, nodeId: string, value: string, v: string)
    requires nodeId !in m
    ensures |Voters(m[nodeId := value], v)| == |Voters(m, v)| + (if v == value then 1 else 0)
  {
    var n := m[nodeId := value];
    if v == value {
      assert Voters(n, v) == Voters(m, v) + {nodeId};
    } else {
      assert Voters(n, v) == Voters(m, v);
    }
  }

  lemma CountOne(votes: seq<Entry>, m: Table, nodeId: string, value: string, j: nat)
    requires Counts(votes, m) && nodeId !in m
    requires j <= |votes| && (forall k :: 0 <= k < j ==> votes[k].id != value) && (j < |votes| ==> votes[j].id == value)
    ensures Counts(if j == |votes| then votes + [Entry(value, 1)] else votes[j := Entry(value, votes[j].votes + 1)],
                   m[nodeId := value])
  {
    var n := m[nodeId := value];
    var grown := if j == |votes| then votes + [Entry(value, 1)] else votes[j := Entry(value, votes[j].votes + 1)];
    forall v ensures |Voters(n, v)| == |Voters(m, v)| + (if v == value then 1 else 0) {
      VotersGrow(m, nodeId, value, v);
    }
    ValuesGrow(m, nodeId, value);
    hide Voters;
    if j == |votes| {
      NoVoters(m, value);
    }
    forall v | v in n.Values ensures exists i :: 0 <= i < |grown| && grown[i].id == v {
      if v == value {
        assert grown[j].id == v;
      } else {
        var i :| 0 <= i < |votes| && votes[i].id == v;
        assert grown[i].id == v;
      }
    }
  }

  lemma ValuesGrow(m: Table, nodeId: string, value: string)
    requires nodeId !in m
    ensures m[nodeId := value].Values == m.Values + {value}
  {
    var n := m[nodeId := value];
    assert nodeId in n;
    forall v | v in m.Values ensures v in n.Values {
      var k :| k in m && m[k] == v;
      assert k in n && n[k] == v;
    }
  }

  lemma NoVoters(m: Table, value: string)
    requires value !in m.Values
    ensures |Voters(m, value)| == 0
  {
    assert Voters(m, value) == {};
  }

  lemma FirstIsMostPopular(entries: seq<NodeValue>, votes: seq<Entry>, sorted: seq<Entry>)
    requires Counts(votes, TableOf(entries)) && Ranked(sorted) && multiset(sorted) == multiset(votes) && |sorted| > 0
    ensures IsMostPopular(TableOf(entries), sorted[0].id)
  {
    hide Precedes, Voters;
    var m := TableOf(entries);
    var first := sorted[0];
    assert first in multiset(votes);
    var f :| 0 <= f < |votes| && votes[f] == first;
    forall w | w in m.Values && w != first.id ensures Precedes(first, Entry(w, |Voters(m, w)|)) {
      var i :| 0 <= i < |votes| && votes[i].id == w;
      assert votes[i] in multiset(sorted);
      var k :| 0 <= k < |sorted| && sorted[k] == votes[i];
      assert !Precedes(sorted[k], sorted[0]);
      PrecedesTotal(sorted[k], sorted[0]);
    }
  }

  lemma PrecedesTotal(a: Entry, b: Entry)
    requires a.id != b.id && !Precedes(a, b)
    ensures Precedes(b, a)
  {
    LessTotal(a.id, b.id);
  }
}
