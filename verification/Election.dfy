/** core/initiator.ts: how the nodes settle on an initiator. */
module Election {
  import opened Base
  import opened NodeVotes

  /** A vote message or a lost node: set or delete one node's value. */
  datatype Update = Update(nodeId: string, value: Option<string>)

  /** What happens while a node waits for one try: messages from any node, concurrent runs on this node
      included, and then the nodes that the network lists. */
  datatype Round = Round(updates: seq<Update>, nodes: seq<string>)

  function AfterUpdates(m: Table, updates: seq<Update>): (r: Table) {
    if |updates| == 0 then m
    else
      var before, last := AfterUpdates(m, updates[..|updates| - 1]), updates[|updates| - 1];
      if last.value.None? then before - {last.nodeId} else before[last.nodeId := last.value.value]
  }

  /** The votes that a node sees when it decides in round `j`. */
  function TableAt(m: Table, rounds: seq<Round>, j: nat): (r: Table)
    requires j <= |rounds|
  {
    if j == 0 then m else AfterUpdates(TableAt(m, rounds, j - 1), rounds[j - 1].updates)
  }

  /** getNodeIds: the listed nodes and this one. */
  function NodeIds(self: string, nodes: seq<string>): (ids: set<string>) { Elements(nodes) + {self} }

  /** getForcedInitiatorId. */
  function ForcedId(self: string, forced: string, online: set<string>): (r: Option<string>) {
    if forced == "" then None
    else if forced == "me" then Some(self)
    else if forced in online then Some(forced) else None
  }

  predicate IsLeast(ids: set<string>, id: string) {
    id in ids && forall other :: other in ids && other != id ==> Less(id, other)
  }

  /** The value a try comes up with, None when it has to be tried again. */
  ghost predicate TryGives(self: string, forced: string, m: Table, online: set<string>, r: Option<string>) {
    var forcedId := ForcedId(self, forced, online);
    if forcedId.Some? then r == (if forcedId.value in online then forcedId else None)
    else if r.Some? then IsMostPopular(m, r.value) && r.value in online
    else forall v :: IsMostPopular(m, v) ==> v !in online
  }

  /** The nodes listed when the tries are over: those of the last try, or `nodes` if there was none. */
  function NodesAfter(rounds: seq<Round>, used: nat, nodes: seq<string>): (r: seq<string>)
    requires used <= |rounds|
  {
    if used == 0 then nodes else rounds[used - 1].nodes
  }

  /** getDefaultInitiatorId: the forced id, or else the least id online. */
  ghost predicate IsDefault(self: string, forced: string, online: set<string>, r: string) {
    var forcedId := ForcedId(self, forced, online);
    if forcedId.Some? then r == forcedId.value else IsLeast(online, r)
  }

  /** After `used` tries the node settles on `r`: the last try gave it, or all tries, none at all possibly,
      gave nothing and it is the default. */
  ghost predicate Settles(self: string, forced: string, m: Table, rounds: seq<Round>, nodes: seq<string>, used: nat, r: string) {
    && used <= |rounds|
    && (forall j :: 0 <= j < used - 1 ==>
          TryGives(self, forced, TableAt(m, rounds, j + 1), NodeIds(self, rounds[j].nodes), None))
    && var online := NodeIds(self, NodesAfter(rounds, used, nodes));
       || (used > 0 && TryGives(self, forced, TableAt(m, rounds, used), online, Some(r)))
       || ((used > 0 ==> TryGives(self, forced, TableAt(m, rounds, used), online, None))
           && used == |rounds| && IsDefault(self, forced, online, r))
  }

  class InitiatorVoting {
    const id: string
    const forcedInitiatorId: string  // empty: none
    const nodeInitiatorIds: NodeValues

    constructor (id: string, forcedInitiatorId: string)
      ensures this.id == id && this.forcedInitiatorId == forcedInitiatorId
      ensures fresh(nodeInitiatorIds) && nodeInitiatorIds.Valid() && nodeInitiatorIds.Contents() == map[]
    {
      this.id, this.forcedInitiatorId := id, forcedInitiatorId;
      this.nodeInitiatorIds := new NodeValues();
    }

    method Receive(updates: seq<Update>)
      requires nodeInitiatorIds.Valid()
      modifies nodeInitiatorIds
      ensures nodeInitiatorIds.Valid()
      ensures nodeInitiatorIds.Contents() == AfterUpdates(old(nodeInitiatorIds.Contents()), updates)
    {
      var i := 0;
      while i < |updates|
        invariant 0 <= i <= |updates|
        invariant nodeInitiatorIds.Valid()
        invariant nodeInitiatorIds.Contents() == AfterUpdates(old(nodeInitiatorIds.Contents()), updates[..i])
      {
        nodeInitiatorIds.SetNodeValue(updates[i].nodeId, updates[i].value);
        assert updates[..i + 1][..i] == updates[..i];
        i := i + 1;
      }
      assert updates[..i] == updates;
    }

    method GetNodeIds(nodes: seq<string>) returns (nodeIds: seq<string>)
      ensures Elements(nodeIds) == NodeIds(id, nodes)
    {
      nodeIds := nodes;
      if id !in nodeIds {
        nodeIds := nodeIds + [id];
      }
    }

    method GetDefaultInitiatorId(nodes: seq<string>) returns (r: string)
      ensures IsDefault(id, forcedInitiatorId, NodeIds(id, nodes), r)
    {
      var nodeIds := GetNodeIds(nodes);
      var forcedId := ForcedId(id, forcedInitiatorId, Elements(nodeIds));
      if forcedId.Some? {
        return forcedId.value;
      }
      var entries := seq(|nodeIds|, i requires 0 <= i < |nodeIds| => Entry(nodeIds[i], 0));
      var sorted := Sort(entries);
      assert id in Elements(nodeIds);
      FirstIsLeast(nodeIds, entries, sorted);
      r := sorted[0].id;
    }

    /** syncInitiatorFromNetwork with |rounds| tries; `nodes` are listed if there are none. */
    method SyncInitiatorFromNetwork(rounds: seq<Round>, nodes: seq<string>) returns (initiatorId: string, used: nat)
      requires nodeInitiatorIds.Valid()
      modifies nodeInitiatorIds
      ensures nodeInitiatorIds.Valid()
      ensures Settles(id, forcedInitiatorId, old(nodeInitiatorIds.Contents()), rounds, nodes, used, initiatorId)
      ensures nodeInitiatorIds.Contents() == TableAt(old(nodeInitiatorIds.Contents()), rounds, used)[id := initiatorId]
    {
      hide Settles, Trying, TryGives, IsDefault, AfterUpdates, NodeIds;
      ghost var before := nodeInitiatorIds.Contents();
      var found: Option<string> := None;
      used := 0;
      NotTriedYet(id, forcedInitiatorId, before, rounds);
      while found.None? && used < |rounds|
        invariant 0 <= used <= |rounds| && (found.Some? ==> used > 0)
        invariant nodeInitiatorIds.Valid() && nodeInitiatorIds.Contents() == TableAt(before, rounds, used)
        invariant Trying(id, forcedInitiatorId, before, rounds, used, found)
      {
        Receive(rounds[used].updates);
        found := TryOnce(rounds[used].nodes);
        TriedAgain(id, forcedInitiatorId, before, rounds, used, found);
        used := used + 1;
      }
      if found.Some? {
        initiatorId := found.value;
      } else {
        initiatorId := GetDefaultInitiatorId(NodesAfter(rounds, used, nodes));
      }
      SettlesNow(id, forcedInitiatorId, before, rounds, nodes, used, found, initiatorId);
      var previous := nodeInitiatorIds.GetNodeValue(id);
      if Some(initiatorId) != previous {
        nodeInitiatorIds.SetNodeValue(id, Some(initiatorId));
      }
    }

    /** The body of the loop, once the answers are in. */
    method TryOnce(nodes: seq<string>) returns (found: Option<string>)
      requires nodeInitiatorIds.Valid()
      ensures TryGives(id, forcedInitiatorId, nodeInitiatorIds.Contents(), NodeIds(id, nodes), found)
    {
      hide IsMostPopular;
      var nodeIds := GetNodeIds(nodes);
      var forcedId := ForcedId(id, forcedInitiatorId, Elements(nodeIds));
      if forcedId.Some? {
        found := forcedId;
      } else {
        found := nodeInitiatorIds.GetMostPopularValue();
        PopularOnly(nodeInitiatorIds.Contents(), found);
      }
      if found.Some? && found.value !in nodeIds {
        found := None;
      }
    }
  }

  lemma PopularOnly(m: Table, found: Option<string>)
    requires found.None? ==> m == map[]
    requires found.Some? ==> IsMostPopular(m, found.value)
    ensures forall v :: IsMostPopular(m, v) ==> found == Some(v)
  {
    forall v | IsMostPopular(m, v) ensures found == Some(v) {
      MostPopularUnique(m, v, if found.Some? then found.value else v);
    }
  }

  /** The loop after `used` tries: all but the last gave nothing, the last gave `found`. */
  ghost predicate Trying(self: string, forced: string, m: Table, rounds: seq<Round>, used: nat, found: Option<string>) {
    && used <= |rounds|
    && (forall j :: 0 <= j < used - 1 ==>
          TryGives(self, forced, TableAt(m, rounds, j + 1), NodeIds(self, rounds[j].nodes), None))
    && if used == 0 then found.None?
       else TryGives(self, forced, TableAt(m, rounds, used), NodeIds(self, rounds[used - 1].nodes), found)
  }

  lemma NotTriedYet(self: string, forced: string, m: Table, rounds: seq<Round>)
    ensures Trying(self, forced, m, rounds, 0, None)
  {
  }

  lemma TriedAgain(self: string, forced: string, m: Table, rounds: seq<Round>, used: nat, found: Option<string>)
    requires Trying(self, forced, m, rounds, used, None) && used < |rounds|
    requires TryGives(self, forced, AfterUpdates(TableAt(m, rounds, used), rounds[used].updates), NodeIds(self, rounds[used].nodes), found)
    ensures Trying(self, forced, m, rounds, used + 1, found)
  {
    hide TryGives, NodeIds;
  }

  lemma SettlesNow(self: string, forced: string, m: Table, rounds: seq<Round>, nodes: seq<string>, used: nat,
                   found: Option<string>, r: string)
    requires Trying(self, forced, m, rounds, used, found)
    requires if found.Some? then r == found.value
             else used == |rounds| && IsDefault(self, forced, NodeIds(self, NodesAfter(rounds, used, nodes)), r)
    ensures Settles(self, forced, m, rounds, nodes, used, r)
  {
    hide TryGives, NodeIds, IsDefault;
  }

  lemma FirstIsLeast(ids: seq<string>, entries: seq<Entry>, sorted: seq<Entry>)
    requires |entries| == |ids| > 0 && forall i :: 0 <= i < |ids| ==> entries[i] == Entry(ids[i], 0)
    requires Ranked(sorted) && multiset(sorted) == multiset(entries)
    ensures |sorted| > 0 && IsLeast(Elements(ids), sorted[0].id)
  {
    hide Less;
    assert |multiset(sorted)| == |multiset(entries)|;
    assert sorted[0] in multiset(entries);
    var f :| 0 <= f < |entries| && entries[f] == sorted[0];
    assert ids[f] == sorted[0].id;
    forall other | other in ids && other != sorted[0].id ensures Less(sorted[0].id, other) {
      var i :| 0 <= i < |ids| && ids[i] == other;
      assert entries[i] in multiset(sorted);
      var k :| 0 <= k < |sorted| && sorted[k] == entries[i];
      PrecedesTotal(sorted[k], sorted[0]);
    }
  }

  /** Whatever the messages, the initiator a node settles on is online, a forced one included. */
  lemma SettlesOnline(self: string, forced: string, m: Table, rounds: seq<Round>, nodes: seq<string>, used: nat, r: string)
    requires Settles(self, forced, m, rounds, nodes, used, r)
    ensures r in NodeIds(self, NodesAfter(rounds, used, nodes))
  {
  }

  /** A forced initiator: "me" settles every node on itself at the first try, and any other id is settled on whenever
      it is online at the end, whatever the votes. */
  lemma ForcedSettles(self: string, forced: string, m: Table, rounds: seq<Round>, nodes: seq<string>, used: nat, r: string)
    requires Settles(self, forced, m, rounds, nodes, used, r) && forced != ""
    ensures forced == "me" ==> r == self && used <= 1
    ensures forced != "me" && (forced == self || forced in NodesAfter(rounds, used, nodes)) ==> r == forced
  {
    hide IsMostPopular, TableAt;
    assert used > 1 ==> TryGives(self, forced, TableAt(m, rounds, 1), NodeIds(self, rounds[0].nodes), None);
  }

  /** A try gives one result only. */
  lemma TryUnique(a: string, b: string, m: Table, online: set<string>, r: Option<string>, q: Option<string>)
    requires TryGives(a, "", m, online, r) && TryGives(b, "", m, online, q)
    ensures r == q
  {
    if r.Some? && q.Some? {
      MostPopularUnique(m, r.value, q.value);
    }
  }

  lemma LeastUnique(ids: set<string>, a: string, b: string)
    requires IsLeast(ids, a) && IsLeast(ids, b)
    ensures a == b
  {
    LessTotal(a, b);
  }

  /** What the try number `u` of a settled node gave. */
  lemma RoundResult(self: string, m: Table, rounds: seq<Round>, nodes: seq<string>, used: nat, x: string, u: nat)
    returns (r: Option<string>)
    requires Settles(self, "", m, rounds, nodes, used, x) && 1 <= u <= used
    ensures TryGives(self, "", TableAt(m, rounds, u), NodeIds(self, rounds[u - 1].nodes), r)
    ensures r.Some? ==> r.value == x && u == used
    ensures r.None? && u == used ==> used == |rounds| && IsLeast(NodeIds(self, rounds[u - 1].nodes), x)
  {
    hide TryGives, IsLeast, NodeIds;
    var v := u - 1;
    if u < used {
      assert TryGives(self, "", TableAt(m, rounds, v + 1), NodeIds(self, rounds[v].nodes), None);
      r := None;
    } else if TryGives(self, "", TableAt(m, rounds, used), NodeIds(self, rounds[used - 1].nodes), Some(x)) {
      r := Some(x);
    } else {
      r := None;
    }
  }

  /** Agreement: two nodes without a forced id that see the same votes and the same nodes online in every
      try settle on the same initiator, after the same number of tries, whatever the order in which
      the votes arrived. */
  lemma Agreement(a: string, ma: Table, ra: seq<Round>, na: seq<string>, usedA: nat, x: string,
                  b: string, mb: Table, rb: seq<Round>, nb: seq<string>, usedB: nat, y: string)
    requires Settles(a, "", ma, ra, na, usedA, x) && Settles(b, "", mb, rb, nb, usedB, y)
    requires |ra| == |rb| && (|ra| == 0 ==> NodeIds(a, na) == NodeIds(b, nb))
    requires forall j :: 1 <= j <= |ra| ==>
      TableAt(ma, ra, j) == TableAt(mb, rb, j) && NodeIds(a, ra[j - 1].nodes) == NodeIds(b, rb[j - 1].nodes)
    ensures x == y && usedA == usedB
  {
    hide TryGives, TableAt, IsLeast, NodeIds;
    var u := if usedA <= usedB then usedA else usedB;
    if u == 0 {
      assert |ra| == 0;
      LeastUnique(NodeIds(a, na), x, y);
    } else {
      var r := RoundResult(a, ma, ra, na, usedA, x, u);
      var q := RoundResult(b, mb, rb, nb, usedB, y, u);
      assert TableAt(ma, ra, u) == TableAt(mb, rb, u);
      TryUnique(a, b, TableAt(ma, ra, u), NodeIds(a, ra[u - 1].nodes), r, q);
      if r.None? {
        LeastUnique(NodeIds(a, ra[u - 1].nodes), x, y);
      }
    }
  }
}
