/** The configuration a member saves, and what it gets back from it. */
module ClusterPersistence {
  import opened SlotRanges
  import opened ClusterNode
  import opened ClusterTable

  datatype SavedNode = SavedNode(id: string, addr: string, flags: seq<Flag>, masterId: string, epoch: int)

  datatype SavedOwner = SavedOwner(start: nat, end: nat, nodeId: string)

  datatype Saved = Saved(nodeId: string, addr: string, epoch: int, nodes: map<string, SavedNode>,
                         slots: seq<SavedOwner>, usurped: seq<SavedOwner>,
                         migrating: seq<(nat, string)>, importing: seq<(nat, string)>)

  /** Some saved entry gives the slot to `id`. */
  predicate Gives(entries: seq<SavedOwner>, slot: nat, id: string) {
    exists k :: 0 <= k < |entries| && entries[k].nodeId == id && entries[k].start <= slot <= entries[k].end
  }

  predicate EntriesInTable(entries: seq<SavedOwner>) {
    forall k :: 0 <= k < |entries| ==> entries[k].end < SLOT_COUNT
  }

  /** The saved entries say exactly who owns what. */
  ghost predicate OwnersSaved(entries: seq<SavedOwner>, slots: seq<Node?>) {
    forall j: nat, id :: Gives(entries, j, id) <==> OwnedBy(slots, j, id)
  }

  /** The ranges listed for one node, in order. */
  function RangesOf(entries: seq<SavedOwner>, id: string): seq<SlotRange> {
    if |entries| == 0 then []
    else
      var last := entries[|entries| - 1];
      RangesOf(entries[..|entries| - 1], id) + if last.nodeId == id then [SlotRange(last.start, last.end)] else []
  }

  /** A list of pairs read back into a map, later pairs winning. */
  function AsMap(pairs: seq<(nat, string)>): map<nat, string> {
    if |pairs| == 0 then map[] else AsMap(pairs[..|pairs| - 1])[pairs[|pairs| - 1].0 := pairs[|pairs| - 1].1]
  }

  ghost function Snapshot(n: Node): SavedNode
    reads n
  {
    SavedNode(n.id, n.addr, n.flags, n.masterId, n.epoch)
  }

  // ------------------------------------------------------------------- saving

  lemma GivesAppend(a: seq<SavedOwner>, b: seq<SavedOwner>, slot: nat, id: string)
    ensures Gives(a + b, slot, id) <==> Gives(a, slot, id) || Gives(b, slot, id)
  {
    if Gives(a, slot, id) {
      var k :| 0 <= k < |a| && a[k].nodeId == id && a[k].start <= slot <= a[k].end;
      assert (a + b)[k] == a[k];
    }
    if Gives(b, slot, id) {
      var k :| 0 <= k < |b| && b[k].nodeId == id && b[k].start <= slot <= b[k].end;
      assert (a + b)[|a| + k] == b[k];
    }
  }

  /** A node's ranges as entries. */
  function Entries(rs: seq<SlotRange>, id: string): seq<SavedOwner> {
    seq(|rs|, k requires 0 <= k < |rs| => SavedOwner(rs[k].start, rs[k].end, id))
  }

  lemma EntriesGive(rs: seq<SlotRange>, id: string, slot: nat, other: string)
    ensures Gives(Entries(rs, id), slot, other) <==> other == id && Covers(rs, slot)
  {
    if other == id && Covers(rs, slot) {
      var k :| 0 <= k < |rs| && InRange(rs[k], slot);
      assert Entries(rs, id)[k].nodeId == id;
    }
    if Gives(Entries(rs, id), slot, other) {
      var k :| 0 <= k < |rs| && Entries(rs, id)[k].nodeId == other && Entries(rs, id)[k].start <= slot <= Entries(rs, id)[k].end;
      assert InRange(rs[k], slot);
    }
  }

  /** The slots of each owner, ascending. */
  method GroupByOwner(slots: seq<Node?>) returns (owned: map<string, seq<nat>>)
    ensures forall id :: id in owned ==> Distinct(owned[id])
    ensures forall id, j: nat :: (id in owned && j in owned[id]) <==> OwnedBy(slots, j, id)
  {
    owned := map[];
    var i := 0;
    while i < |slots|
      invariant 0 <= i <= |slots|
      invariant forall id :: id in owned ==> Distinct(owned[id])
      invariant forall id, j: nat :: (id in owned && j in owned[id]) <==> j < i && OwnedBy(slots, j, id)
    {
      if slots[i] != null {
        var id := slots[i].id;
        var list := if id in owned then owned[id] else [];
        assert i !in list;
        owned := owned[id := list + [i]];
      }
      i := i + 1;
    }
  }

  method MergeSlotOwners(slots: seq<Node?>) returns (entries: seq<SavedOwner>)
    requires |slots| == SLOT_COUNT
    ensures OwnersSaved(entries, slots) && EntriesInTable(entries)
  {
    var owned := GroupByOwner(slots);
    entries := [];
    var rest := owned.Keys;
    while rest != {}
      invariant rest <= owned.Keys && EntriesInTable(entries)
      invariant forall j: nat, id :: Gives(entries, j, id) <==> id in owned && id !in rest && j in owned[id]
      decreases rest
    {
      var id :| id in rest;
      var ranges := MergeConsecutiveSlots(owned[id]);
      assert InTable(ranges) by {
        forall j | j in owned[id] ensures j < SLOT_COUNT { assert OwnedBy(slots, j, id); }
      }
      forall j: nat, other
        ensures Gives(entries + Entries(ranges, id), j, other) <==> Gives(entries, j, other) || (other == id && j in owned[id])
      {
        GivesAppend(entries, Entries(ranges, id), j, other);
        EntriesGive(ranges, id, j, other);
      }
      entries := entries + Entries(ranges, id);
      rest := rest - {id};
    }
  }

  lemma {:induction false} RangesOfAppend(a: seq<SavedOwner>, rs: seq<SlotRange>, id: string, other: string)
    ensures RangesOf(a + Entries(rs, id), other) == RangesOf(a, other) + if other == id then rs else []
    decreases |rs|
  {
    var b := Entries(rs, id);
    if |rs| == 0 {
      assert a + b == a;
    } else {
      var n := |rs| - 1;
      RangesOfAppend(a, rs[..n], id, other);
      assert Entries(rs[..n], id) == b[..n];
      assert (a + b)[..|a + b| - 1] == a + b[..n];
      assert rs[..n] + [rs[n]] == rs;
      assert (a + b)[|a + b| - 1] == SavedOwner(rs[n].start, rs[n].end, id);
      assert RangesOf(a, other) + rs[..n] + [rs[n]] == RangesOf(a, other) + rs;
    }
  }

  /** The takeover list, node by node in any order. */
  method SaveUsurped(usurped: map<string, seq<SlotRange>>) returns (entries: seq<SavedOwner>)
    requires forall id :: id in usurped ==> InTable(usurped[id])
    ensures forall id :: RangesOf(entries, id) == if id in usurped then usurped[id] else []
    ensures EntriesInTable(entries)
  {
    hide RangesOf, Entries, InTable;
    entries := [];
    NoRanges();
    var rest := usurped.Keys;
    while rest != {}
      invariant rest <= usurped.Keys && EntriesInTable(entries)
      invariant forall id :: RangesOf(entries, id) == if id in usurped && id !in rest then usurped[id] else []
      decreases rest
    {
      var id :| id in rest;
      var more := Entries(usurped[id], id);
      OneMoreNode(entries, usurped, rest, id);
      EntriesStayInTable(entries, usurped[id], id);
      entries := entries + more;
      rest := rest - {id};
    }
  }

  lemma NoRanges()
    ensures forall id :: RangesOf([], id) == []
  {}

  lemma EntriesStayInTable(a: seq<SavedOwner>, rs: seq<SlotRange>, id: string)
    requires EntriesInTable(a) && InTable(rs)
    ensures EntriesInTable(a + Entries(rs, id))
  {}

  lemma OneMoreNode(a: seq<SavedOwner>, usurped: map<string, seq<SlotRange>>, rest: set<string>, id: string)
    requires id in rest && rest <= usurped.Keys
    requires forall other :: RangesOf(a, other) == if other in usurped && other !in rest then usurped[other] else []
    ensures forall other :: RangesOf(a + Entries(usurped[id], id), other) ==
                            if other in usurped && other !in rest - {id} then usurped[other] else []
  {
    hide RangesOf, Entries;
    forall other ensures RangesOf(a + Entries(usurped[id], id), other) ==
                         if other in usurped && other !in rest - {id} then usurped[other] else []
    {
      RangesOfAppend(a, usurped[id], id, other);
    }
  }

  /** A map as a list of pairs, in any order. */
  method SavePairs(m: map<nat, string>) returns (pairs: seq<(nat, string)>)
    ensures AsMap(pairs) == m
  {
    pairs := [];
    var rest := m.Keys;
    while rest != {}
      invariant rest <= m.Keys && AsMap(pairs) == m - rest
      decreases rest
    {
      var k :| k in rest;
      assert (pairs + [(k, m[k])])[..|pairs|] == pairs;
      assert m - (rest - {k}) == (m - rest)[k := m[k]];
      pairs := pairs + [(k, m[k])];
      rest := rest - {k};
    }
    assert m - {} == m;
  }

  method SaveNodes(c: Cluster) returns (nodes: map<string, SavedNode>)
    requires c.Shape()
    ensures nodes.Keys == c.nodes.Keys && forall id :: id in nodes ==> nodes[id] == Snapshot(c.nodes[id])
  {
    nodes := map[];
    var rest := c.nodes.Keys;
    while rest != {}
      invariant rest <= c.nodes.Keys && nodes.Keys == c.nodes.Keys - rest
      invariant forall id :: id in nodes ==> nodes[id] == Snapshot(c.nodes[id])
      decreases rest
    {
      var id :| id in rest;
      var n := c.nodes[id];
      nodes := nodes[id := SavedNode(n.id, n.addr, n.flags, n.masterId, n.epoch)];
      rest := rest - {id};
    }
  }

  /** What a saved configuration holds of a view. */
  ghost predicate Records(st: Saved, c: Cluster)
    reads c, c.objs
    requires c.Shape()
  {
    && st.nodeId == c.myself.id && st.addr == c.myself.addr && st.epoch == c.epoch
    && st.nodes.Keys == c.nodes.Keys && (forall id :: id in st.nodes ==> st.nodes[id] == Snapshot(c.nodes[id]))
    && OwnersSaved(st.slots, c.slots)
    && (forall id :: RangesOf(st.usurped, id) == if id in c.usurped then c.usurped[id] else [])
    && AsMap(st.migrating) == c.myself.migrating && AsMap(st.importing) == c.myself.importing
  }

  /** A saved configuration that can be read back: no node is ahead of the epoch, no range leaves the table. */
  predicate Sound(st: Saved) {
    0 <= st.epoch && EntriesInTable(st.slots) && EntriesInTable(st.usurped) &&
    forall id :: id in st.nodes ==> st.nodes[id].id == id && st.nodes[id].epoch <= st.epoch
  }

  method SaveConfig(c: Cluster) returns (st: Saved)
    requires c.Valid()
    ensures Records(st, c) && Sound(st)
  {
    var nodes := SaveNodes(c);
    var slots := MergeSlotOwners(c.slots);
    var usurped := SaveUsurped(c.usurped);
    var migrating := SavePairs(c.myself.migrating);
    var importing := SavePairs(c.myself.importing);
    st := Saved(c.myself.id, c.myself.addr, c.epoch, nodes, slots, usurped, migrating, importing);
  }

  // ------------------------------------------------------------------ loading

  /** The node as it was saved; the process itself, `me`, has its address from its start. */
  ghost predicate Loaded(n: Node, pn: SavedNode, me: string)
    reads n
  {
    n.flags == pn.flags && n.masterId == pn.masterId && n.epoch == pn.epoch && (pn.id != me ==> n.addr == pn.addr)
  }

  method LoadSelf(c: Cluster, st: Saved)
    requires c.Valid() && c.objs == {c.myself} && c.myself.epoch == 0 && Sound(st)
    modifies c`epoch, c.myself`flags, c.myself`masterId, c.myself`epoch
    ensures c.Valid() && c.epoch == st.epoch && (c.myself.id in st.nodes ==> Loaded(c.myself, st.nodes[c.myself.id], c.myself.id))
  {
    c.epoch := st.epoch;
    if c.myself.id in st.nodes {
      var pn := st.nodes[c.myself.id];
      c.myself.flags, c.myself.masterId, c.myself.epoch := pn.flags, pn.masterId, pn.epoch;
    }
  }

  method LoadOther(c: Cluster, pn: SavedNode) returns (n: Node)
    requires c.Valid() && pn.epoch <= c.epoch
    modifies c`nodes, c`objs
    ensures c.Valid() && fresh(n) && Loaded(n, pn, c.myself.id) && n.id == pn.id
    ensures c.nodes == old(c.nodes)[pn.id := n] && c.objs == old(c.objs) + {n}
  {
    n := new Node(pn.id, pn.addr, pn.flags, pn.epoch, 0);
    n.masterId := pn.masterId;
    c.nodes, c.objs := c.nodes[pn.id := n], c.objs + {n};
  }

  /** The node table: this node keeps its object, the others are created. */
  method LoadNodes(c: Cluster, st: Saved)
    requires c.Valid() && c.nodes.Keys == {c.myself.id} && c.nodes[c.myself.id] == c.myself && Sound(st)
    requires c.objs == {c.myself} && c.myself.epoch == 0
    modifies c`nodes, c`epoch, c`objs, c.myself`flags, c.myself`masterId, c.myself`epoch
    ensures c.Valid() && c.epoch == st.epoch && fresh(c.objs - old(c.objs)) && c.myself in c.objs
    ensures c.nodes.Keys == st.nodes.Keys + {c.myself.id} && c.nodes[c.myself.id] == c.myself
    ensures forall id :: id in st.nodes ==> Loaded(c.nodes[id], st.nodes[id], c.myself.id)
  {
    hide InTable, Covers;
    LoadSelf(c, st);
    var rest := st.nodes.Keys - {c.myself.id};
    while rest != {}
      invariant rest <= st.nodes.Keys - {c.myself.id} && c.Valid() && c.epoch == st.epoch
      invariant c.nodes.Keys == (st.nodes.Keys - rest) + {c.myself.id} && c.nodes[c.myself.id] == c.myself
      invariant fresh(c.objs - old(c.objs)) && c.myself in c.objs
      invariant forall id :: id in st.nodes && id !in rest ==> Loaded(c.nodes[id], st.nodes[id], c.myself.id)
      decreases rest
    {
      var id :| id in rest;
      var _ := LoadOther(c, st.nodes[id]);
      rest := rest - {id};
    }
  }

  /** The owner an entry stands for: an id that is not in the table falls to this node. */
  function Resolve(c: Cluster, id: string): Node
    reads c
  {
    if id in c.nodes then c.nodes[id] else c.myself
  }

  predicate Spans(e: SavedOwner, slot: nat) { e.start <= slot <= e.end }

  method LoadEntry(c: Cluster, e: SavedOwner)
    requires c.Valid() && e.end < SLOT_COUNT
    modifies c`slots, c.objs`ranges
    ensures c.Valid()
    ensures forall j: nat :: j < SLOT_COUNT ==> c.slots[j] == if Spans(e, j) then Resolve(c, e.nodeId) else old(c.slots)[j]
  {
    c.PutRange(e.start, e.end, Resolve(c, e.nodeId));
  }

  /** A slot is free when no entry spans it, and otherwise has the owner some spanning entry stands for. */
  ghost predicate SlotsLoaded(c: Cluster, entries: seq<SavedOwner>)
    reads c
  {
    |c.slots| == SLOT_COUNT &&
    (forall j: nat, k :: j < SLOT_COUNT && c.slots[j] == null && 0 <= k < |entries| ==> !Spans(entries[k], j)) &&
    (forall j: nat :: j < SLOT_COUNT && c.slots[j] != null ==>
      exists k :: 0 <= k < |entries| && Spans(entries[k], j) && c.slots[j] == Resolve(c, entries[k].nodeId))
  }

  method LoadSlots(c: Cluster, entries: seq<SavedOwner>)
    requires c.Valid() && EntriesInTable(entries) && forall j :: 0 <= j < SLOT_COUNT ==> c.slots[j] == null
    modifies c`slots, c.objs`ranges
    ensures c.Valid()
    ensures SlotsLoaded(c, entries)
  {
    var i := 0;
    while i < |entries|
      invariant 0 <= i <= |entries| && c.Valid()
      invariant forall j: nat, k :: j < SLOT_COUNT && c.slots[j] == null && 0 <= k < i ==> !Spans(entries[k], j)
      invariant forall j: nat :: j < SLOT_COUNT && c.slots[j] != null ==>
                  exists k :: 0 <= k < i && Spans(entries[k], j) && c.slots[j] == Resolve(c, entries[k].nodeId)
    {
      LoadEntry(c, entries[i]);
      i := i + 1;
    }
  }

  method LoadPairs(pairs: seq<(nat, string)>) returns (m: map<nat, string>)
    ensures m == AsMap(pairs)
  {
    m := map[];
    var i := 0;
    while i < |pairs|
      invariant 0 <= i <= |pairs| && m == AsMap(pairs[..i])
    {
      assert pairs[..i + 1][..i] == pairs[..i];
      m := m[pairs[i].0 := pairs[i].1];
      i := i + 1;
    }
    assert pairs[..i] == pairs;
  }

  method LoadUsurped(entries: seq<SavedOwner>) returns (m: map<string, seq<SlotRange>>)
    requires EntriesInTable(entries)
    ensures forall id :: id in m <==> RangesOf(entries, id) != []
    ensures forall id :: id in m ==> m[id] == RangesOf(entries, id) && InTable(m[id])
  {
    m := map[];
    var i := 0;
    while i < |entries|
      invariant 0 <= i <= |entries|
      invariant forall id :: id in m <==> RangesOf(entries[..i], id) != []
      invariant forall id :: id in m ==> m[id] == RangesOf(entries[..i], id) && InTable(m[id])
    {
      assert entries[..i + 1][..i] == entries[..i];
      var e := entries[i];
      var list := if e.nodeId in m then m[e.nodeId] else [];
      m := m[e.nodeId := list + [SlotRange(e.start, e.end)]];
      i := i + 1;
    }
    assert entries[..i] == entries;
  }

  /** loadState on a node that has just been created. */
  method LoadState(c: Cluster, st: Saved)
    requires c.Valid() && c.nodes.Keys == {c.myself.id} && c.nodes[c.myself.id] == c.myself && Sound(st)
    requires c.objs == {c.myself} && c.myself.epoch == 0 && forall j :: 0 <= j < SLOT_COUNT ==> c.slots[j] == null
    modifies c, c.objs
    ensures c.Valid() && c.epoch == st.epoch && c.myself == old(c.myself) && fresh(c.objs - old(c.objs))
    ensures c.nodes.Keys == st.nodes.Keys + {c.myself.id} && c.nodes[c.myself.id] == c.myself
    ensures forall id :: id in st.nodes ==> Loaded(c.nodes[id], st.nodes[id], c.myself.id)
    ensures c.myself.migrating == AsMap(st.migrating) && c.myself.importing == AsMap(st.importing)
    ensures forall id :: id in c.usurped <==> RangesOf(st.usurped, id) != []
    ensures forall id :: id in c.usurped ==> c.usurped[id] == RangesOf(st.usurped, id)
    ensures SlotsLoaded(c, st.slots)
  {
    hide RangesOf, AsMap, InTable, Covers;
    LoadNodes(c, st);
    LoadMarks(c, st);
    LoadSlots(c, st.slots);
  }

  method LoadMarks(c: Cluster, st: Saved)
    requires c.Valid() && Sound(st)
    modifies c.myself`migrating, c.myself`importing, c`usurped
    ensures c.Valid()
    ensures c.myself.migrating == AsMap(st.migrating) && c.myself.importing == AsMap(st.importing)
    ensures forall id :: id in c.usurped <==> RangesOf(st.usurped, id) != []
    ensures forall id :: id in c.usurped ==> c.usurped[id] == RangesOf(st.usurped, id)
  {
    hide RangesOf, AsMap, InTable, Covers;
    var usurped := LoadUsurped(st.usurped);
    c.usurped := usurped;
    var migrating := LoadPairs(st.migrating);
    var importing := LoadPairs(st.importing);
    SetMarks(c, migrating, importing);
  }

  method SetMarks(c: Cluster, migrating: map<nat, string>, importing: map<nat, string>)
    requires c.Valid()
    modifies c.myself`migrating, c.myself`importing
    ensures c.Valid() && c.myself.migrating == migrating && c.myself.importing == importing
  {
    hide InTable, Covers;
    c.myself.migrating, c.myself.importing := migrating, importing;
  }

  /**
    A restart: what was saved is read back by a new process. Everything returns, and a slot
    returns to its owner exactly when the owner is in the node table or is this node.
   */
  method Restart(c: Cluster) returns (d: Cluster)
    requires c.Valid()
    ensures d.Valid() && fresh(d) && fresh(d.objs)
    ensures d.myself.id == c.myself.id && d.myself.addr == c.myself.addr && d.epoch == c.epoch && d.usurped == c.usurped
    ensures d.nodes.Keys == c.nodes.Keys + {c.myself.id}
    ensures forall id :: id in c.nodes ==> Loaded(d.nodes[id], Snapshot(c.nodes[id]), d.myself.id)
    ensures d.myself.migrating == c.myself.migrating && d.myself.importing == c.myself.importing
    ensures forall j :: 0 <= j < SLOT_COUNT ==> (d.slots[j] == null <==> c.slots[j] == null)
    ensures forall j :: 0 <= j < SLOT_COUNT && c.slots[j] != null ==>
              (d.slots[j].id == c.slots[j].id <==> c.slots[j].id in c.nodes || c.slots[j].id == c.myself.id)
  {
    hide RangesOf, AsMap, InTable, Covers, SlotsLoaded, OwnersSaved;
    var st := SaveConfig(c);
    d := new Cluster.Blank(st.nodeId, st.addr);
    LoadState(d, st);
    OwnersRestored(c, d, st.slots);
  }

  lemma OwnersRestored(c: Cluster, d: Cluster, entries: seq<SavedOwner>)
    requires c.Shape() && d.Shape() && SlotsLoaded(d, entries) && OwnersSaved(entries, c.slots)
    ensures forall j :: 0 <= j < SLOT_COUNT ==> (d.slots[j] == null <==> c.slots[j] == null)
    ensures forall j :: 0 <= j < SLOT_COUNT && c.slots[j] != null ==> d.slots[j] == Resolve(d, c.slots[j].id)
  {
    forall j | 0 <= j < SLOT_COUNT
      ensures d.slots[j] == null <==> c.slots[j] == null
      ensures c.slots[j] != null ==> d.slots[j] == Resolve(d, c.slots[j].id)
    {
      OwnerRead(entries, c.slots, j);
    }
  }

  /** Exactly the entries under the owner's id span a slot. */
  lemma OwnerRead(entries: seq<SavedOwner>, slots: seq<Node?>, j: nat)
    requires OwnersSaved(entries, slots) && j < |slots|
    ensures slots[j] != null ==> exists k :: 0 <= k < |entries| && Spans(entries[k], j)
    ensures forall k :: 0 <= k < |entries| && Spans(entries[k], j) ==> slots[j] != null && slots[j].id == entries[k].nodeId
  {
    forall k | 0 <= k < |entries| && Spans(entries[k], j) ensures slots[j] != null && slots[j].id == entries[k].nodeId {
      assert Gives(entries, j, entries[k].nodeId);
    }
    if slots[j] != null {
      assert OwnedBy(slots, j, slots[j].id);
      assert Gives(entries, j, slots[j].id);
      var k :| 0 <= k < |entries| && entries[k].nodeId == slots[j].id && entries[k].start <= j <= entries[k].end;
      assert Spans(entries[k], j);
    }
  }
}
