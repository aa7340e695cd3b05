/** What a gossip message does to a view, by value: the nodes it teaches and the failures it reports. */
module ClusterMerge {
  import opened Basics
  import opened SlotRanges
  import opened ClusterNode
  import opened ClusterTable

  const FAIL_TIMEOUT: int := 5000

  datatype NodeInfo = NodeInfo(id: string, addr: string, flags: seq<Flag>, epoch: int, pongRecv: int)

  predicate IsFresh(pongRecv: int, now: int) { pongRecv > 0 && now - pongRecv < FAIL_TIMEOUT }

  /** The part of a view a message can change, taken out of the heap. */
  datatype View = View(nodes: map<string, Node>, flags: map<string, seq<Flag>>, epochs: map<string, int>, pongs: map<string, int>,
                       addrs: map<string, string>, reports: map<string, set<string>>, usurped: map<string, seq<SlotRange>>,
                       slots: seq<Node?>)

  predicate WellFormed(v: View) {
    v.flags.Keys == v.nodes.Keys && v.epochs.Keys == v.nodes.Keys && v.pongs.Keys == v.nodes.Keys && v.addrs.Keys == v.nodes.Keys
  }

  ghost function ViewOf(c: Cluster): (v: View)
    reads c, c.objs
    requires c.Shape()
    ensures WellFormed(v)
  {
    View(c.nodes, FlagsOf(c.nodes), EpochsOf(c.nodes), PongsOf(c.nodes), AddrsOf(c.nodes), c.pfailReports, c.usurped, c.slots)
  }

  lemma ViewParts(c: Cluster)
    requires c.Shape()
    ensures ViewOf(c) == View(c.nodes, FlagsOf(c.nodes), EpochsOf(c.nodes), PongsOf(c.nodes), AddrsOf(c.nodes),
                              c.pfailReports, c.usurped, c.slots)
  {}

  ghost function AddrsOf(nodes: map<string, Node>): map<string, string> { map id | id in nodes :: nodes[id].addr }

  ghost function FlagsOf(nodes: map<string, Node>): map<string, seq<Flag>>
    reads nodes.Values
  {
    map id | id in nodes :: nodes[id].flags
  }

  ghost function EpochsOf(nodes: map<string, Node>): map<string, int>
    reads nodes.Values
  {
    map id | id in nodes :: nodes[id].epoch
  }

  ghost function PongsOf(nodes: map<string, Node>): map<string, int>
    reads nodes.Values
  {
    map id | id in nodes :: nodes[id].pongRecv
  }

  lemma FlagsAt(nodes: map<string, Node>)
    ensures FlagsOf(nodes).Keys == nodes.Keys && forall id :: id in nodes ==> FlagsOf(nodes)[id] == nodes[id].flags
  {}

  lemma FlagsAre(nodes: map<string, Node>, flags: map<string, seq<Flag>>)
    requires flags.Keys == nodes.Keys && forall id :: id in nodes ==> flags[id] == nodes[id].flags
    ensures FlagsOf(nodes) == flags
  {}

  lemma EpochsAt(nodes: map<string, Node>)
    ensures EpochsOf(nodes).Keys == nodes.Keys && forall id :: id in nodes ==> EpochsOf(nodes)[id] == nodes[id].epoch
  {}

  lemma EpochsAre(nodes: map<string, Node>, epochs: map<string, int>)
    requires epochs.Keys == nodes.Keys && forall id :: id in nodes ==> epochs[id] == nodes[id].epoch
    ensures EpochsOf(nodes) == epochs
  {}

  lemma PongsAt(nodes: map<string, Node>)
    ensures PongsOf(nodes).Keys == nodes.Keys && forall id :: id in nodes ==> PongsOf(nodes)[id] == nodes[id].pongRecv
  {}

  lemma PongsAre(nodes: map<string, Node>, pongs: map<string, int>)
    requires pongs.Keys == nodes.Keys && forall id :: id in nodes ==> pongs[id] == nodes[id].pongRecv
    ensures PongsOf(nodes) == pongs
  {}

  lemma TablesExtended(nodes: map<string, Node>, node: Node)
    requires node.id !in nodes
    ensures FlagsOf(nodes[node.id := node]) == FlagsOf(nodes)[node.id := node.flags]
    ensures EpochsOf(nodes[node.id := node]) == EpochsOf(nodes)[node.id := node.epoch]
    ensures PongsOf(nodes[node.id := node]) == PongsOf(nodes)[node.id := node.pongRecv]
    ensures AddrsOf(nodes[node.id := node]) == AddrsOf(nodes)[node.id := node.addr]
  {}

  lemma FlagsIn(c: Cluster, id: string)
    requires c.Shape() && id in c.nodes
    ensures ViewOf(c).nodes == c.nodes && ViewOf(c).flags[id] == c.nodes[id].flags
  {}

  lemma TableIn(c: Cluster)
    requires c.Shape()
    ensures ViewOf(c).nodes == c.nodes && ViewOf(c).slots == c.slots && ViewOf(c).usurped == c.usurped
  {}

  lemma AddressIn(c: Cluster, addr: string)
    requires c.Shape() && exists id :: id in c.nodes && c.nodes[id].addr == addr
    ensures ViewOf(c).nodes == c.nodes && exists id :: id in ViewOf(c).nodes && ViewOf(c).addrs[id] == addr
  {
    var id :| id in c.nodes && c.nodes[id].addr == addr;
    assert ViewOf(c).addrs[id] == addr;
  }

  function At<T>(m: map<string, T>, id: string): Option<T> { if id in m then Some(m[id]) else None }

  // -------------------------------------------------------------- learning nodes

  /** Some entry says the node has answered lately. */
  predicate HeardOf(infos: seq<NodeInfo>, id: string, now: int) {
    exists i :: 0 <= i < |infos| && infos[i].id == id && IsFresh(infos[i].pongRecv, now)
  }

  /** Slots are withheld from the node, and an entry says it is back. */
  predicate Due(v: View, infos: seq<NodeInfo>, id: string, now: int, me: string) {
    id in v.usurped && id != me && HeardOf(infos, id, now)
  }

  function Later(a: int, b: int): int { if b > a then b else a }

  /** A node stays, as the object it is, and its epoch and pong time do not fall. */
  predicate Stays(v: View, w: View, id: string)
    requires WellFormed(v) && WellFormed(w) && id in v.nodes
  {
    id in w.nodes && w.nodes[id] == v.nodes[id] && w.addrs[id] == v.addrs[id] &&
    w.epochs[id] >= v.epochs[id] && w.pongs[id] >= v.pongs[id]
  }

  /** The node's epoch is the one it had, or one an entry gives it; one whose slots are returned gets a new one. */
  predicate EpochTold(v: View, infos: seq<NodeInfo>, now: int, me: string, w: View, id: string)
    requires WellFormed(v) && WellFormed(w) && id in w.nodes
  {
    Due(v, infos, id, now, me) || (id in v.nodes && w.epochs[id] == v.epochs[id]) ||
    exists i :: 0 <= i < |infos| && infos[i].id == id && infos[i].epoch == w.epochs[id]
  }

  /** So is the time of its last pong. */
  predicate PongTold(v: View, infos: seq<NodeInfo>, w: View, id: string)
    requires WellFormed(v) && WellFormed(w) && id in w.nodes
  {
    (id in v.nodes && w.pongs[id] == v.pongs[id]) || exists i :: 0 <= i < |infos| && infos[i].id == id && infos[i].pongRecv == w.pongs[id]
  }

  ghost predicate NumbersTold(v: View, infos: seq<NodeInfo>, now: int, me: string, w: View)
    requires WellFormed(v) && WellFormed(w)
  {
    forall id :: id in w.nodes ==> EpochTold(v, infos, now, me, w, id) && PongTold(v, infos, w, id)
  }

  /** A slot of this node that was withheld from a node now back is that node's. */
  ghost predicate Heir(v: View, infos: seq<NodeInfo>, now: int, me: string, w: View, j: nat)
    requires j < |w.slots|
  {
    OwnedBy(v.slots, j, me) && !OwnedBy(w.slots, j, me) &&
    exists id :: id in w.nodes && Due(v, infos, id, now, me) && Covers(v.usurped[id], j) && w.slots[j] == w.nodes[id]
  }

  /** A slot of this node is withheld from a known node that is back. */
  ghost predicate Owed(v: View, infos: seq<NodeInfo>, now: int, me: string, j: nat) {
    OwnedBy(v.slots, j, me) && exists id :: id in v.nodes && Due(v, infos, id, now, me) && Covers(v.usurped[id], j)
  }

  /** A slot stays, or is returned to a node it was withheld from; one that is owed is returned. */
  ghost predicate SlotReturned(v: View, infos: seq<NodeInfo>, now: int, me: string, w: View, j: nat)
    requires j < |v.slots| == |w.slots|
  {
    (w.slots[j] == v.slots[j] || Heir(v, infos, now, me, w, j)) && (Owed(v, infos, now, me, j) ==> Heir(v, infos, now, me, w, j))
  }

  ghost predicate SlotsReturned(v: View, infos: seq<NodeInfo>, now: int, me: string, w: View) {
    |w.slots| == |v.slots| && (forall j: nat :: j < |v.slots| ==> SlotReturned(v, infos, now, me, w, j)) &&
    (NothingDue(v, infos, now, me) ==> w.slots == v.slots)
  }

  /** Records of withheld slots only go. */
  ghost predicate Fewer(v: View, w: View) {
    forall id :: id in w.usurped ==> id in v.usurped && w.usurped[id] == v.usurped[id]
  }

  /** A listed node is known, or its address is another's. */
  predicate Placed(info: NodeInfo, me: string, w: View)
    requires WellFormed(w)
  {
    info.id == me || info.id in w.nodes || exists id :: id in w.nodes && w.addrs[id] == info.addr
  }

  /** A known node is not behind what is said of it. */
  predicate Heeded(v: View, info: NodeInfo, me: string, w: View)
    requires WellFormed(v) && WellFormed(w)
  {
    info.id in v.nodes && info.id in w.nodes && info.id != me ==>
      w.epochs[info.id] >= info.epoch && w.pongs[info.id] >= info.pongRecv
  }

  /** A node was known before, or was listed with its address and no higher epoch. */
  predicate Introduced(v: View, infos: seq<NodeInfo>, w: View, id: string)
    requires WellFormed(w) && id in w.nodes
  {
    id in v.nodes ||
    exists i :: 0 <= i < |infos| && infos[i].id == id && infos[i].addr == w.addrs[id] && infos[i].epoch <= w.epochs[id]
  }

  /** Nothing is said of the node: its flags, its reports and what is withheld from it stay. */
  predicate Untold(v: View, w: View, id: string)
    requires WellFormed(v) && WellFormed(w)
  {
    At(w.reports, id) == At(v.reports, id) && At(w.usurped, id) == At(v.usurped, id) &&
    (id in v.nodes && id in w.nodes ==> w.flags[id] == v.flags[id])
  }

  /** No slot withheld from a node is due back. */
  ghost predicate NothingDue(v: View, infos: seq<NodeInfo>, now: int, me: string) {
    forall id :: !Due(v, infos, id, now, me)
  }

  /** The node table after the gossip section. */
  ghost predicate TableLearned(v: View, infos: seq<NodeInfo>, me: string, w: View)
    requires WellFormed(v) && WellFormed(w)
  {
    && (forall id :: id in v.nodes ==> Stays(v, w, id))
    && (forall id :: id in w.nodes ==> Introduced(v, infos, w, id))
    && (forall i :: 0 <= i < |infos| ==> Placed(infos[i], me, w))
    && (forall i :: 0 <= i < |infos| ==> Heeded(v, infos[i], me, w))
  }

  /** The nodes' state after it. */
  ghost predicate StateLearned(v: View, infos: seq<NodeInfo>, now: int, me: string, w: View)
    requires WellFormed(v) && WellFormed(w)
  {
    && (forall id :: id == me || !HeardOf(infos, id, now) ==> Untold(v, w, id))
    && (forall id :: id in v.nodes && id in w.nodes && id != me && HeardOf(infos, id, now) ==> !HasFail(w.flags[id]))
    && Fewer(v, w)
  }

  /**
    What the gossip section does: every listed node is known afterwards, or its address was taken; no known
    node is lost or falls back, and its epoch and pong time are the latest told; a node heard of has no failure
    flag left and the slots withheld from it back, and of the others nothing changes.
   */
  ghost predicate Learned(v: View, infos: seq<NodeInfo>, now: int, me: string, w: View)
    requires WellFormed(v) && WellFormed(w)
  {
    TableLearned(v, infos, me, w) && StateLearned(v, infos, now, me, w) && NumbersTold(v, infos, now, me, w) &&
    SlotsReturned(v, infos, now, me, w)
  }

  lemma HeardEither(a: seq<NodeInfo>, b: seq<NodeInfo>, id: string, now: int)
    ensures HeardOf(a + b, id, now) <==> HeardOf(a, id, now) || HeardOf(b, id, now)
  {
    var c := a + b;
    if HeardOf(a, id, now) {
      var i :| 0 <= i < |a| && a[i].id == id && IsFresh(a[i].pongRecv, now);
      assert c[i] == a[i];
    }
    if HeardOf(b, id, now) {
      var i :| 0 <= i < |b| && b[i].id == id && IsFresh(b[i].pongRecv, now);
      assert c[|a| + i] == b[i];
    }
    if HeardOf(c, id, now) {
      var i :| 0 <= i < |c| && c[i].id == id && IsFresh(c[i].pongRecv, now);
      if i < |a| { assert a[i] == c[i]; } else { assert b[i - |a|] == c[i]; }
    }
  }

  lemma IntroducedEither(v: View, a: seq<NodeInfo>, u: View, b: seq<NodeInfo>, w: View, id: string)
    requires WellFormed(u) && WellFormed(w) && id in w.nodes && Introduced(u, b, w, id)
    requires id in u.nodes ==> Introduced(v, a, u, id) && w.addrs[id] == u.addrs[id] && w.epochs[id] >= u.epochs[id]
    ensures Introduced(v, a + b, w, id)
  {
    var c := a + b;
    if id in u.nodes {
      if id !in v.nodes {
        var i :| 0 <= i < |a| && a[i].id == id && a[i].addr == u.addrs[id] && a[i].epoch <= u.epochs[id];
        assert c[i] == a[i];
      }
    } else {
      var i :| 0 <= i < |b| && b[i].id == id && b[i].addr == w.addrs[id] && b[i].epoch <= w.epochs[id];
      assert c[|a| + i] == b[i];
    }
  }

  lemma PlacedStays(info: NodeInfo, me: string, u: View, w: View)
    requires WellFormed(u) && WellFormed(w) && Placed(info, me, u) && forall id :: id in u.nodes ==> Stays(u, w, id)
    ensures Placed(info, me, w)
  {
    if info.id != me && info.id !in u.nodes {
      var id :| id in u.nodes && u.addrs[id] == info.addr;
      assert Stays(u, w, id);
    } else if info.id != me {
      assert Stays(u, w, info.id);
    }
  }

  lemma TableLearnedBoth(v: View, a: seq<NodeInfo>, u: View, b: seq<NodeInfo>, w: View, me: string)
    requires WellFormed(v) && WellFormed(u) && WellFormed(w)
    requires TableLearned(v, a, me, u) && TableLearned(u, b, me, w)
    ensures TableLearned(v, a + b, me, w)
  {
    hide Introduced, Placed, Heeded, Stays;
    var c := a + b;
    forall id | id in v.nodes ensures Stays(v, w, id) { StaysBoth(v, u, w, id); }
    forall id | id in w.nodes ensures Introduced(v, c, w, id) {
      if id in u.nodes { StaysBoth(u, u, w, id); }
      IntroducedEither(v, a, u, b, w, id);
    }
    forall i | 0 <= i < |c| ensures Placed(c[i], me, w) && Heeded(v, c[i], me, w) {
      if i < |a| { assert c[i] == a[i]; PlacedStays(a[i], me, u, w); } else { assert c[i] == b[i - |a|]; }
      HeededBoth(v, u, c[i], me, w);
    }
  }

  lemma StaysBoth(v: View, u: View, w: View, id: string)
    requires WellFormed(v) && WellFormed(u) && WellFormed(w) && id in v.nodes
    requires v == u || Stays(v, u, id)
    requires id in u.nodes ==> Stays(u, w, id)
    ensures id in u.nodes && id in w.nodes && w.addrs[id] == v.addrs[id] && w.epochs[id] >= v.epochs[id] && Stays(v, w, id)
  {}

  lemma HeededBoth(v: View, u: View, info: NodeInfo, me: string, w: View)
    requires WellFormed(v) && WellFormed(u) && WellFormed(w) && (Heeded(v, info, me, u) || Heeded(u, info, me, w))
    requires (info.id in v.nodes ==> Stays(v, u, info.id)) && (info.id in u.nodes ==> Stays(u, w, info.id))
    ensures Heeded(v, info, me, w)
  {}

  lemma StateLearnedBoth(v: View, a: seq<NodeInfo>, u: View, b: seq<NodeInfo>, w: View, now: int, me: string)
    requires WellFormed(v) && WellFormed(u) && WellFormed(w) && v.nodes.Keys <= u.nodes.Keys
    requires StateLearned(v, a, now, me, u) && StateLearned(u, b, now, me, w)
    ensures StateLearned(v, a + b, now, me, w)
  {
    hide HeardOf, HasFail, Untold, Fewer;
    var c := a + b;
    forall id ensures HeardOf(c, id, now) <==> HeardOf(a, id, now) || HeardOf(b, id, now) { HeardEither(a, b, id, now); }
    forall id | id == me || !HeardOf(c, id, now) ensures Untold(v, w, id) { UntoldBoth(v, u, w, id); }
    forall id | id in v.nodes && id in w.nodes && id != me && HeardOf(c, id, now) ensures !HasFail(w.flags[id]) {
      if !HeardOf(b, id, now) { SameFlags(u, w, id); }
    }
    FewerBoth(v, u, w);
  }

  lemma SameFlags(v: View, w: View, id: string)
    requires WellFormed(v) && WellFormed(w) && Untold(v, w, id) && id in v.nodes && id in w.nodes
    ensures w.flags[id] == v.flags[id]
  {}

  lemma UntoldBoth(v: View, u: View, w: View, id: string)
    requires WellFormed(v) && WellFormed(u) && WellFormed(w) && Untold(v, u, id) && Untold(u, w, id)
    requires id in v.nodes ==> id in u.nodes
    ensures Untold(v, w, id)
  {}

  lemma FewerBoth(v: View, u: View, w: View)
    requires Fewer(v, u) && Fewer(u, w)
    ensures Fewer(v, w)
  {}

  lemma DueEither(v: View, a: seq<NodeInfo>, u: View, b: seq<NodeInfo>, id: string, now: int, me: string)
    requires Fewer(v, u) && (id == me || !HeardOf(a, id, now) ==> At(u.usurped, id) == At(v.usurped, id))
    ensures Due(v, a + b, id, now, me) <==> Due(v, a, id, now, me) || Due(u, b, id, now, me)
    ensures Due(u, b, id, now, me) ==> v.usurped[id] == u.usurped[id]
  {
    hide HeardOf;
    HeardEither(a, b, id, now);
  }

  lemma EpochToldBoth(v: View, a: seq<NodeInfo>, u: View, b: seq<NodeInfo>, w: View, id: string, now: int, me: string)
    requires WellFormed(v) && WellFormed(u) && WellFormed(w) && id in w.nodes && EpochTold(u, b, now, me, w, id)
    requires id in u.nodes ==> EpochTold(v, a, now, me, u, id)
    requires Due(v, a, id, now, me) || Due(u, b, id, now, me) ==> Due(v, a + b, id, now, me)
    ensures EpochTold(v, a + b, now, me, w, id)
  {
    hide Due;
    var c := a + b;
    if !Due(v, c, id, now, me) && id in u.nodes && w.epochs[id] == u.epochs[id] {
      if !(id in v.nodes && u.epochs[id] == v.epochs[id]) {
        var i :| 0 <= i < |a| && a[i].id == id && a[i].epoch == u.epochs[id];
        assert c[i] == a[i];
      }
    } else if !Due(v, c, id, now, me) {
      var i :| 0 <= i < |b| && b[i].id == id && b[i].epoch == w.epochs[id];
      assert c[|a| + i] == b[i];
    }
  }

  lemma PongToldBoth(v: View, a: seq<NodeInfo>, u: View, b: seq<NodeInfo>, w: View, id: string)
    requires WellFormed(v) && WellFormed(u) && WellFormed(w) && id in w.nodes && PongTold(u, b, w, id)
    requires id in u.nodes ==> PongTold(v, a, u, id)
    ensures PongTold(v, a + b, w, id)
  {
    var c := a + b;
    if id in u.nodes && w.pongs[id] == u.pongs[id] {
      if !(id in v.nodes && u.pongs[id] == v.pongs[id]) {
        var i :| 0 <= i < |a| && a[i].id == id && a[i].pongRecv == u.pongs[id];
        assert c[i] == a[i];
      }
    } else {
      var i :| 0 <= i < |b| && b[i].id == id && b[i].pongRecv == w.pongs[id];
      assert c[|a| + i] == b[i];
    }
  }

  lemma NumbersToldBoth(v: View, a: seq<NodeInfo>, u: View, b: seq<NodeInfo>, w: View, now: int, me: string)
    requires WellFormed(v) && WellFormed(u) && WellFormed(w)
    requires StateLearned(v, a, now, me, u) && NumbersTold(v, a, now, me, u) && NumbersTold(u, b, now, me, w)
    ensures NumbersTold(v, a + b, now, me, w)
  {
    hide EpochTold, PongTold, HeardOf, HasFail, Due;
    forall id | id in w.nodes ensures EpochTold(v, a + b, now, me, w, id) && PongTold(v, a + b, w, id) {
      if id == me || !HeardOf(a, id, now) { assert Untold(v, u, id); }
      DueEither(v, a, u, b, id, now, me);
      EpochToldBoth(v, a, u, b, w, id, now, me);
      PongToldBoth(v, a, u, b, w, id);
    }
  }

  /** A slot through two stretches of the gossip section. */
  lemma SlotReturnedBoth(v: View, a: seq<NodeInfo>, u: View, b: seq<NodeInfo>, w: View, now: int, me: string, j: nat)
    requires WellFormed(v) && WellFormed(u) && WellFormed(w) && StateLearned(v, a, now, me, u)
    requires (forall id :: id in v.nodes ==> Stays(v, u, id)) && (forall id :: id in u.nodes ==> Stays(u, w, id))
    requires j < |v.slots| == |u.slots| == |w.slots| && SlotReturned(v, a, now, me, u, j) && SlotReturned(u, b, now, me, w, j)
    ensures SlotReturned(v, a + b, now, me, w, j)
  {
    hide HeardOf, HasFail, Covers, Fewer;
    if Heir(v, a, now, me, u, j) {
      ReturnedFirst(v, a, u, b, w, now, me, j);
    } else if Heir(u, b, now, me, w, j) {
      ReturnedSecond(v, a, u, b, w, now, me, j);
    } else if Owed(v, a + b, now, me, j) {
      OwedOnce(v, a, u, b, now, me, j);
    }
  }

  lemma OwedOnce(v: View, a: seq<NodeInfo>, u: View, b: seq<NodeInfo>, now: int, me: string, j: nat)
    requires WellFormed(v) && WellFormed(u) && StateLearned(v, a, now, me, u) && forall id :: id in v.nodes ==> Stays(v, u, id)
    requires j < |v.slots| == |u.slots| && u.slots[j] == v.slots[j] && Owed(v, a + b, now, me, j)
    ensures Owed(v, a, now, me, j) || Owed(u, b, now, me, j)
  {
    hide HeardOf, HasFail, Covers;
    var id :| id in v.nodes && Due(v, a + b, id, now, me) && Covers(v.usurped[id], j);
    if id == me || !HeardOf(a, id, now) { assert Untold(v, u, id); }
    DueEither(v, a, u, b, id, now, me);
    assert Stays(v, u, id);
  }

  lemma ReturnedFirst(v: View, a: seq<NodeInfo>, u: View, b: seq<NodeInfo>, w: View, now: int, me: string, j: nat)
    requires WellFormed(u) && WellFormed(w) && j < |v.slots| == |u.slots| == |w.slots|
    requires forall id :: id in u.nodes ==> Stays(u, w, id)
    requires Heir(v, a, now, me, u, j) && SlotReturned(u, b, now, me, w, j)
    ensures Heir(v, a + b, now, me, w, j)
  {
    hide HeardOf, Covers;
    var id :| id in u.nodes && Due(v, a, id, now, me) && Covers(v.usurped[id], j) && u.slots[j] == u.nodes[id];
    assert Stays(u, w, id);
    HeardEither(a, b, id, now);
    assert Due(v, a + b, id, now, me);
  }

  lemma ReturnedSecond(v: View, a: seq<NodeInfo>, u: View, b: seq<NodeInfo>, w: View, now: int, me: string, j: nat)
    requires j < |v.slots| == |u.slots| == |w.slots| && Fewer(v, u)
    requires u.slots[j] == v.slots[j] && Heir(u, b, now, me, w, j)
    ensures Heir(v, a + b, now, me, w, j)
  {
    hide HeardOf, Covers;
    var id :| id in w.nodes && Due(u, b, id, now, me) && Covers(u.usurped[id], j) && w.slots[j] == w.nodes[id];
    HeardEither(a, b, id, now);
    assert Due(v, a + b, id, now, me);
  }

  lemma SlotsReturnedBoth(v: View, a: seq<NodeInfo>, u: View, b: seq<NodeInfo>, w: View, now: int, me: string)
    requires WellFormed(v) && WellFormed(u) && WellFormed(w) && StateLearned(v, a, now, me, u)
    requires (forall id :: id in v.nodes ==> Stays(v, u, id)) && (forall id :: id in u.nodes ==> Stays(u, w, id))
    requires SlotsReturned(v, a, now, me, u) && SlotsReturned(u, b, now, me, w)
    ensures SlotsReturned(v, a + b, now, me, w)
  {
    hide HeardOf, HasFail, Due, SlotReturned, Stays, Fewer;
    forall j: nat | j < |v.slots| ensures SlotReturned(v, a + b, now, me, w, j) {
      SlotReturnedBoth(v, a, u, b, w, now, me, j);
    }
    if NothingDue(v, a + b, now, me) {
      forall id ensures !Due(v, a, id, now, me) && !Due(u, b, id, now, me) {
        if id == me || !HeardOf(a, id, now) { assert Untold(v, u, id); }
        DueEither(v, a, u, b, id, now, me);
      }
    }
  }

  /** Two stretches of the gossip section, one after the other. */
  lemma LearnedBoth(v: View, a: seq<NodeInfo>, u: View, b: seq<NodeInfo>, w: View, now: int, me: string)
    requires WellFormed(v) && WellFormed(u) && WellFormed(w)
    requires Learned(v, a, now, me, u) && Learned(u, b, now, me, w)
    ensures Learned(v, a + b, now, me, w)
  {
    forall id | id in v.nodes ensures id in u.nodes { assert Stays(v, u, id); }
    hide StateLearned, NumbersTold, SlotsReturned, Stays, Introduced, Placed;
    TableLearnedBoth(v, a, u, b, w, me);
    StateLearnedBoth(v, a, u, b, w, now, me);
    NumbersToldBoth(v, a, u, b, w, now, me);
    SlotsReturnedBoth(v, a, u, b, w, now, me);
  }

  /** What one entry about a known node does to the numbers: only a node whose slots are returned gets a new epoch. */
  ghost predicate NumbersRefreshed(v: View, info: NodeInfo, now: int, w: View)
    requires WellFormed(v) && WellFormed(w) && w.nodes == v.nodes
  {
    && (forall id :: id in v.nodes && id != info.id ==> w.epochs[id] == v.epochs[id] && w.pongs[id] == v.pongs[id])
    && (info.id in v.nodes ==>
          w.pongs[info.id] == Later(v.pongs[info.id], info.pongRecv) && w.epochs[info.id] >= Later(v.epochs[info.id], info.epoch))
    && (info.id in v.nodes && !(IsFresh(info.pongRecv, now) && info.id in v.usurped) ==>
          w.epochs[info.id] == Later(v.epochs[info.id], info.epoch))
  }

  /** What it does to the rest: only the node's own state changes, and only a fresh entry clears it. */
  ghost predicate StateRefreshed(v: View, info: NodeInfo, now: int, w: View)
    requires WellFormed(v) && WellFormed(w) && w.nodes == v.nodes
  {
    && (forall id :: id != info.id || !IsFresh(info.pongRecv, now) ==> Untold(v, w, id))
    && (info.id in v.nodes && IsFresh(info.pongRecv, now) ==> !HasFail(w.flags[info.id]))
    && Fewer(v, w)
  }

  ghost predicate Refreshed(v: View, info: NodeInfo, now: int, w: View)
    requires WellFormed(v) && WellFormed(w)
  {
    w.nodes == v.nodes && w.addrs == v.addrs && NumbersRefreshed(v, info, now, w) && StateRefreshed(v, info, now, w)
  }

  /** A node that is back: its flags, its reports and what was withheld from it go, and nothing else changes. */
  ghost predicate Recovered(v: View, id: string, w: View)
    requires WellFormed(v) && WellFormed(w)
  {
    w.nodes == v.nodes && w.addrs == v.addrs && NumbersRecovered(v, id, w) && StateRecovered(v, id, w)
  }

  ghost predicate NumbersRecovered(v: View, id: string, w: View)
    requires WellFormed(v) && WellFormed(w) && w.nodes == v.nodes
  {
    && w.pongs == v.pongs
    && (forall x :: x in v.nodes && x != id ==> w.epochs[x] == v.epochs[x])
    && (id in v.nodes ==> w.epochs[id] >= v.epochs[id])
    && (id !in v.usurped ==> w.epochs == v.epochs)
  }

  ghost predicate StateRecovered(v: View, id: string, w: View)
    requires WellFormed(v) && WellFormed(w) && w.nodes == v.nodes
  {
    && (forall x :: x != id ==> Untold(v, w, x))
    && (id in v.nodes ==> !HasFail(w.flags[id]))
    && Fewer(v, w)
  }

  /** Recovery, from what it takes away. */
  lemma RecoveredBy(v: View, id: string, w: View)
    requires WellFormed(v) && WellFormed(w) && w.nodes == v.nodes && w.addrs == v.addrs && NumbersRecovered(v, id, w)
    requires w.reports == v.reports - {id} && w.usurped == v.usurped - {id}
    requires (forall x :: x in v.nodes && x != id ==> w.flags[x] == v.flags[x]) && (id in v.nodes ==> !HasFail(w.flags[id]))
    ensures Recovered(v, id, w)
  {
    hide HasFail, NumbersRecovered;
  }

  /** A view in which one node has been told an epoch and a pong time. */
  predicate Raised(v: View, info: NodeInfo, w: View)
    requires WellFormed(v) && WellFormed(w)
  {
    info.id in v.nodes &&
    w == v.(epochs := v.epochs[info.id := Later(v.epochs[info.id], info.epoch)],
            pongs := v.pongs[info.id := Later(v.pongs[info.id], info.pongRecv)])
  }

  lemma RaisedFlags(v: View, info: NodeInfo, w: View)
    requires WellFormed(v) && WellFormed(w) && Raised(v, info, w)
    ensures info.id in v.nodes && v.flags[info.id] == w.flags[info.id]
  {}

  lemma RaisedOnly(v: View, info: NodeInfo, now: int, w: View)
    requires WellFormed(v) && WellFormed(w) && Raised(v, info, w)
    requires IsFresh(info.pongRecv, now) ==> !HasFail(v.flags[info.id])
    ensures Refreshed(v, info, now, w)
  {
    hide IsFresh, HasFail;
  }

  lemma RaisedAndRecovered(v: View, info: NodeInfo, now: int, u: View, w: View)
    requires WellFormed(v) && WellFormed(u) && WellFormed(w) && Raised(v, info, u)
    requires Recovered(u, info.id, w) && IsFresh(info.pongRecv, now)
    ensures Refreshed(v, info, now, w)
  {
    hide IsFresh, HasFail, NumbersRecovered, NumbersRefreshed;
    NumbersRaised(v, info, now, u, w);
    forall id | id != info.id ensures Untold(v, w, id) { assert Untold(u, w, id); }
  }

  lemma NumbersRaised(v: View, info: NodeInfo, now: int, u: View, w: View)
    requires WellFormed(v) && WellFormed(u) && WellFormed(w) && Raised(v, info, u)
    requires w.nodes == u.nodes && NumbersRecovered(u, info.id, w)
    requires IsFresh(info.pongRecv, now)
    ensures NumbersRefreshed(v, info, now, w)
  {
    hide IsFresh;
  }

  lemma RefreshedAgain(v: View, info: NodeInfo, now: int, u: View, w: View)
    requires WellFormed(v) && WellFormed(u) && WellFormed(w) && Refreshed(v, info, now, u)
    requires Recovered(u, info.id, w) && IsFresh(info.pongRecv, now)
    ensures Refreshed(v, info, now, w)
  {
    assert info.id in u.usurped ==> info.id in v.usurped;
    hide IsFresh, HasFail, NumbersRecovered, NumbersRefreshed, Untold, Fewer;
    NumbersAgain(v, info, now, u, w);
    forall id | id != info.id ensures Untold(v, w, id) { UntoldBoth(v, u, w, id); }
    FewerBoth(v, u, w);
  }

  lemma NumbersAgain(v: View, info: NodeInfo, now: int, u: View, w: View)
    requires WellFormed(v) && WellFormed(u) && WellFormed(w) && u.nodes == v.nodes && NumbersRefreshed(v, info, now, u)
    requires w.nodes == u.nodes && NumbersRecovered(u, info.id, w) && (info.id in u.usurped ==> info.id in v.usurped)
    requires IsFresh(info.pongRecv, now)
    ensures NumbersRefreshed(v, info, now, w)
  {
    hide IsFresh, Later;
  }

  lemma HeardOne(info: NodeInfo, id: string, now: int)
    ensures HeardOf([info], id, now) <==> id == info.id && IsFresh(info.pongRecv, now)
  {
    if id == info.id && IsFresh(info.pongRecv, now) { assert [info][0].id == id; }
  }

  lemma RefreshedLearns(v: View, info: NodeInfo, now: int, me: string, w: View)
    requires WellFormed(v) && WellFormed(w) && Refreshed(v, info, now, w) && info.id in v.nodes && info.id != me
    requires info.id in w.nodes && w.nodes[info.id].id == info.id
    requires w.slots == if IsFresh(info.pongRecv, now) && info.id in v.usurped
                        then GiveBack(v.slots, v.usurped[info.id], me, w.nodes[info.id]) else v.slots
    ensures Learned(v, [info], now, me, w)
  {
    hide Refreshed, TableLearned, StateLearned, NumbersTold, SlotsReturned, IsFresh, GiveBack, WellFormed;
    RefreshedTable(v, info, now, me, w);
    RefreshedState(v, info, now, me, w);
    RefreshedNumbers(v, info, now, me, w);
    RefreshedSlots(v, info, now, me, w);
  }

  lemma RefreshedTable(v: View, info: NodeInfo, now: int, me: string, w: View)
    requires WellFormed(v) && WellFormed(w) && Refreshed(v, info, now, w) && info.id in v.nodes
    ensures w.nodes == v.nodes && TableLearned(v, [info], me, w)
  {
    hide IsFresh, StateRefreshed;
    assert [info][0] == info;
    forall id | id in v.nodes ensures Stays(v, w, id) && Introduced(v, [info], w, id) {}
  }

  lemma RefreshedState(v: View, info: NodeInfo, now: int, me: string, w: View)
    requires WellFormed(v) && WellFormed(w) && Refreshed(v, info, now, w) && info.id in v.nodes && info.id != me
    ensures StateLearned(v, [info], now, me, w)
  {
    hide IsFresh, HasFail, HeardOf, Untold, Fewer, NumbersRefreshed;
    forall id ensures HeardOf([info], id, now) <==> id == info.id && IsFresh(info.pongRecv, now) { HeardOne(info, id, now); }
  }

  lemma RefreshedNumbers(v: View, info: NodeInfo, now: int, me: string, w: View)
    requires WellFormed(v) && WellFormed(w) && Refreshed(v, info, now, w) && info.id in v.nodes && info.id != me
    ensures NumbersTold(v, [info], now, me, w)
  {
    hide IsFresh, HeardOf, StateRefreshed;
    HeardOne(info, info.id, now);
    assert [info][0] == info;
  }

  lemma RefreshedSlots(v: View, info: NodeInfo, now: int, me: string, w: View)
    requires info.id in v.nodes && info.id in w.nodes && w.nodes[info.id].id == info.id && info.id != me
    requires w.slots == if IsFresh(info.pongRecv, now) && info.id in v.usurped
                        then GiveBack(v.slots, v.usurped[info.id], me, w.nodes[info.id]) else v.slots
    ensures SlotsReturned(v, [info], now, me, w)
  {
    hide IsFresh, HeardOf, GiveBack, Covers, SlotReturned;
    forall id ensures Due(v, [info], id, now, me) <==> id == info.id && id in v.usurped && IsFresh(info.pongRecv, now) {
      HeardOne(info, id, now);
    }
    if Due(v, [info], info.id, now, me) {
      if |v.slots| == 0 {
        EmptyGiveBack(v.usurped[info.id], me, w.nodes[info.id], v.slots);
      } else {
        GiveBackAt(v.slots, v.usurped[info.id], me, w.nodes[info.id], 0);
      }
      forall j: nat | j < |v.slots| ensures SlotReturned(v, [info], now, me, w, j) {
        GiveBackAt(v.slots, v.usurped[info.id], me, w.nodes[info.id], j);
        OneReturned(v, info, now, me, w, j);
      }
    } else {
      forall j: nat | j < |v.slots| ensures SlotReturned(v, [info], now, me, w, j) { OneReturned(v, info, now, me, w, j); }
    }
  }

  lemma EmptyGiveBack(rs: seq<SlotRange>, mine: string, to: Node, slots: seq<Node?>)
    requires |slots| == 0
    ensures |GiveBack(slots, rs, mine, to)| == 0
  {}

  lemma OneReturned(v: View, info: NodeInfo, now: int, me: string, w: View, j: nat)
    requires j < |v.slots| == |w.slots| && info.id in v.nodes && info.id in w.nodes && w.nodes[info.id].id == info.id
    requires forall id :: Due(v, [info], id, now, me) <==> id == info.id && Due(v, [info], info.id, now, me)
    requires w.slots[j] == if Due(v, [info], info.id, now, me) && Covers(v.usurped[info.id], j) && OwnedBy(v.slots, j, me)
                           then w.nodes[info.id] else v.slots[j]
    ensures SlotReturned(v, [info], now, me, w, j)
  {
    hide Covers, HeardOf;
  }

  function Extended(v: View, node: Node, flags: seq<Flag>, epoch: int, pong: int): View {
    v.(nodes := v.nodes[node.id := node], flags := v.flags[node.id := flags],
       epochs := v.epochs[node.id := epoch], pongs := v.pongs[node.id := pong], addrs := v.addrs[node.id := node.addr])
  }

  lemma ViewExtended(c: Cluster, v: View, node: Node)
    requires c.Shape() && node.id !in v.nodes && c.nodes == v.nodes[node.id := node]
    requires v.flags == FlagsOf(v.nodes) && v.epochs == EpochsOf(v.nodes) && v.pongs == PongsOf(v.nodes) && v.addrs == AddrsOf(v.nodes)
    requires v.reports == c.pfailReports && v.usurped == c.usurped && v.slots == c.slots
    ensures ViewOf(c) == Extended(v, node, node.flags, node.epoch, node.pongRecv)
  {
    TablesExtended(v.nodes, node);
    hide FlagsOf, EpochsOf, PongsOf, AddrsOf;
  }

  /** One entry about a node that is not known: it is added as listed. */
  lemma AddedLearns(v: View, info: NodeInfo, node: Node, now: int, me: string, w: View)
    requires WellFormed(v) && info.id !in v.nodes && node.id == info.id && node.addr == info.addr
    requires w == Extended(v, node, info.flags, info.epoch, info.pongRecv)
    ensures WellFormed(w) && Learned(v, [info], now, me, w)
  {
    assert TableLearned(v, [info], me, w) by { AddedToTable(v, info, node, me, w); }
    assert NumbersTold(v, [info], now, me, w) by { AddedNumbers(v, info, node, now, me, w); }
    assert StateLearned(v, [info], now, me, w) && SlotsReturned(v, [info], now, me, w) by { AddedState(v, info, node, now, me, w); }
    hide TableLearned, StateLearned, SlotsReturned, NumbersTold;
  }

  lemma AddedState(v: View, info: NodeInfo, node: Node, now: int, me: string, w: View)
    requires WellFormed(v) && info.id !in v.nodes && node.id == info.id
    requires w == Extended(v, node, info.flags, info.epoch, info.pongRecv)
    ensures WellFormed(w) && StateLearned(v, [info], now, me, w) && SlotsReturned(v, [info], now, me, w)
  {
    assert WellFormed(w) && Fewer(v, w);
    assert forall id :: Untold(v, w, id);
    hide HasFail, HeardOf, SlotsReturned, Untold, Fewer, WellFormed, Extended;
    forall id ensures HeardOf([info], id, now) ==> id == info.id { HeardOne(info, id, now); }
    SlotsUntouched(v, [info], now, me, w);
  }

  lemma AddedNumbers(v: View, info: NodeInfo, node: Node, now: int, me: string, w: View)
    requires WellFormed(v) && info.id !in v.nodes && node.id == info.id
    requires w == Extended(v, node, info.flags, info.epoch, info.pongRecv)
    ensures WellFormed(w) && NumbersTold(v, [info], now, me, w)
  {
    hide Due;
    assert [info][0] == info;
    forall id | id in w.nodes ensures EpochTold(v, [info], now, me, w, id) && PongTold(v, [info], w, id) {
      if id == info.id { assert [info][0].id == id; }
    }
  }

  lemma AddedToTable(v: View, info: NodeInfo, node: Node, me: string, w: View)
    requires WellFormed(v) && info.id !in v.nodes && node.id == info.id && node.addr == info.addr
    requires w == Extended(v, node, info.flags, info.epoch, info.pongRecv)
    ensures WellFormed(w) && TableLearned(v, [info], me, w)
  {
    ExtendedParts(v, info, node, w);
    hide Extended;
    assert [info][0] == info;
    forall id | id in w.nodes ensures Introduced(v, [info], w, id) {
      if id == info.id { assert [info][0].id == id; }
    }
    hide Stays;
  }

  lemma ExtendedParts(v: View, info: NodeInfo, node: Node, w: View)
    requires WellFormed(v) && info.id !in v.nodes && node.id == info.id && node.addr == info.addr
    requires w == Extended(v, node, info.flags, info.epoch, info.pongRecv)
    ensures WellFormed(w) && w.nodes.Keys == v.nodes.Keys + {info.id} && w.addrs[info.id] == info.addr && w.epochs[info.id] == info.epoch
    ensures forall id :: id in v.nodes ==> Stays(v, w, id)
  {
    ExtendedKeys(v, node, info, w);
    forall id | id in v.nodes ensures Stays(v, w, id) {
      assert w.nodes[id] == v.nodes[id] && w.addrs[id] == v.addrs[id] && w.epochs[id] == v.epochs[id] && w.pongs[id] == v.pongs[id];
    }
  }

  lemma ExtendedKeys(v: View, node: Node, info: NodeInfo, w: View)
    requires WellFormed(v) && w == Extended(v, node, info.flags, info.epoch, info.pongRecv)
    ensures WellFormed(w) && w.nodes.Keys == v.nodes.Keys + {node.id}
  {
    var keys := v.nodes.Keys + {node.id};
    assert w.nodes.Keys == keys;
    assert w.flags.Keys == keys;
    assert w.epochs.Keys == keys;
    assert w.pongs.Keys == keys;
    assert w.addrs.Keys == keys;
  }

  /** One entry that is passed over: it is this node's own, or its address is another's. */
  lemma SkippedLearns(v: View, info: NodeInfo, now: int, me: string)
    requires WellFormed(v) && (info.id == me || (info.id !in v.nodes && exists id :: id in v.nodes && v.addrs[id] == info.addr))
    ensures Learned(v, [info], now, me, v)
  {
    hide HasFail, SlotsReturned;
    forall id | id in v.nodes ensures Stays(v, v, id) {}
    forall id ensures HeardOf([info], id, now) ==> id == info.id { HeardOne(info, id, now); }
    SlotsUntouched(v, [info], now, me, v);
  }

  /** Nothing is returned, and nothing is owed to a known node. */
  lemma SlotsUntouched(v: View, infos: seq<NodeInfo>, now: int, me: string, w: View)
    requires w.slots == v.slots && forall id :: id in v.nodes ==> !Due(v, infos, id, now, me)
    ensures SlotsReturned(v, infos, now, me, w)
  {
    hide Due, Covers;
  }

  lemma LearnedNothing(v: View, now: int, me: string)
    requires WellFormed(v)
    ensures Learned(v, [], now, me, v)
  {}

  // ---------------------------------------------------------- failure agreement

  function Reports(reports: map<string, set<string>>, id: string): set<string> {
    if id in reports then reports[id] else {}
  }

  /** The reports needed besides this node's own mark. */
  function Threshold(all: set<string>, me: string): nat { (|all - {me}| + 1) / 2 }

  /** A report of `id` that is taken up. */
  predicate Counts(v: View, reporter: string, id: string, me: string) { id in v.nodes && id != me && id != reporter }

  /** With this report the node is promoted: it is marked, but not FAIL, and the reporters reach the threshold. */
  predicate Promotes(v: View, reporter: string, id: string, me: string)
    requires WellFormed(v)
  {
    Counts(v, reporter, id, me) && HasFail(v.flags[id]) && Fail !in v.flags[id] &&
    |Reports(v.reports, id) + {reporter}| >= Threshold(v.nodes.Keys, me)
  }

  predicate FlagsAfter(v: View, reporter: string, ids: set<string>, me: string, w: View)
    requires WellFormed(v) && WellFormed(w) && w.nodes == v.nodes
  {
    forall id :: id in v.nodes ==>
      if id in ids && Promotes(v, reporter, id, me) then Fail in w.flags[id] else w.flags[id] == v.flags[id]
  }

  ghost predicate ReportsAfter(v: View, reporter: string, ids: set<string>, me: string, w: View)
    requires WellFormed(v)
  {
    forall id ::
      if !(id in ids && Counts(v, reporter, id, me)) then At(w.reports, id) == At(v.reports, id)
      else !Promotes(v, reporter, id, me) ==> At(w.reports, id) == Some(Reports(v.reports, id) + {reporter})
  }

  ghost predicate SlotsAfter(v: View, reporter: string, ids: set<string>, myself: Node, w: View)
    requires WellFormed(v)
  {
    |w.slots| == |v.slots| && forall j :: 0 <= j < |v.slots| ==>
      w.slots[j] == if v.slots[j] != null && v.slots[j].id in ids && Promotes(v, reporter, v.slots[j].id, myself.id)
                    then myself else v.slots[j]
  }

  /**
    What reports of the nodes `ids` do: each that counts is recorded, or the node is promoted and all its
    slots become this node's. No other node, no other report and no other slot changes.
   */
  ghost predicate Reported(v: View, reporter: string, ids: set<string>, myself: Node, w: View)
    requires WellFormed(v) && WellFormed(w)
  {
    w.nodes == v.nodes && w.epochs == v.epochs && w.pongs == v.pongs && w.addrs == v.addrs &&
    FlagsAfter(v, reporter, ids, myself.id, w) && ReportsAfter(v, reporter, ids, myself.id, w) &&
    SlotsAfter(v, reporter, ids, myself, w)
  }

  lemma ReportedNothing(v: View, reporter: string, myself: Node)
    requires WellFormed(v)
    ensures Reported(v, reporter, {}, myself, v)
  {}

  /** One report, from what it does to the one node. */
  lemma ReportedOnce(v: View, reporter: string, id: string, myself: Node, promoted: bool, w: View)
    requires WellFormed(v) && WellFormed(w) && w.nodes == v.nodes && w.epochs == v.epochs && w.pongs == v.pongs && w.addrs == v.addrs
    requires promoted <==> Promotes(v, reporter, id, myself.id)
    requires forall x :: x in v.nodes && (x != id || !promoted) ==> w.flags[x] == v.flags[x]
    requires promoted ==> Fail in w.flags[id] && w.slots == GiveAll(v.slots, id, myself)
    requires !promoted ==> w.slots == v.slots
    requires w.reports - {id} == v.reports - {id} && (!Counts(v, reporter, id, myself.id) ==> w.reports == v.reports)
    requires Counts(v, reporter, id, myself.id) && !promoted ==> At(w.reports, id) == Some(Reports(v.reports, id) + {reporter})
    ensures Reported(v, reporter, {id}, myself, w)
  {
    hide Promotes, Counts;
    forall x | x != id ensures At(w.reports, x) == At(v.reports, x) {
      assert At(w.reports - {id}, x) == At(w.reports, x) && At(v.reports - {id}, x) == At(v.reports, x);
    }
  }

  /** Whether a report promotes is the same before and after reports of other nodes, and not twice. */
  lemma PromotesOnce(v: View, reporter: string, ids: set<string>, me: string, u: View, id: string)
    requires WellFormed(v) && WellFormed(u) && u.nodes == v.nodes
    requires FlagsAfter(v, reporter, ids, me, u) && ReportsAfter(v, reporter, ids, me, u)
    ensures Counts(u, reporter, id, me) <==> Counts(v, reporter, id, me)
    ensures Promotes(u, reporter, id, me) <==> Promotes(v, reporter, id, me) && id !in ids
  {
    if Counts(v, reporter, id, me) && !(id in ids && Promotes(v, reporter, id, me)) {
      assert u.flags[id] == v.flags[id];
      assert Reports(u.reports, id) + {reporter} == Reports(v.reports, id) + {reporter} by {
        VotersKept(v, reporter, ids, me, u, id);
      }
      hide FlagsAfter, ReportsAfter, HasFail, Threshold;
    }
  }

  lemma VotersKept(v: View, reporter: string, ids: set<string>, me: string, u: View, id: string)
    requires WellFormed(v) && ReportsAfter(v, reporter, ids, me, u) && !(id in ids && Promotes(v, reporter, id, me))
    ensures Reports(u.reports, id) + {reporter} == Reports(v.reports, id) + {reporter}
  {
    hide Promotes;
    if id in ids && Counts(v, reporter, id, me) {
      assert At(u.reports, id) == Some(Reports(v.reports, id) + {reporter});
    } else {
      assert At(u.reports, id) == At(v.reports, id);
    }
  }

  /** `u` is `v` once the reports of `ids` are in. */
  ghost predicate Since(v: View, reporter: string, ids: set<string>, me: string, u: View)
    requires WellFormed(v) && WellFormed(u)
  {
    forall x ::
      (Counts(u, reporter, x, me) <==> Counts(v, reporter, x, me)) &&
      (Promotes(u, reporter, x, me) <==> Promotes(v, reporter, x, me) && x !in ids)
  }

  lemma FlagsOneMore(v: View, reporter: string, ids: set<string>, me: string, u: View, id: string, w: View)
    requires WellFormed(v) && WellFormed(u) && WellFormed(w) && u.nodes == v.nodes && w.nodes == u.nodes
    requires Since(v, reporter, ids, me, u) && FlagsAfter(v, reporter, ids, me, u) && FlagsAfter(u, reporter, {id}, me, w)
    ensures FlagsAfter(v, reporter, ids + {id}, me, w)
  {
    hide Promotes, Counts;
  }

  lemma ReportsOneMore(v: View, reporter: string, ids: set<string>, me: string, u: View, id: string, w: View)
    requires WellFormed(v) && WellFormed(u)
    requires Since(v, reporter, ids, me, u) && ReportsAfter(v, reporter, ids, me, u) && ReportsAfter(u, reporter, {id}, me, w)
    ensures ReportsAfter(v, reporter, ids + {id}, me, w)
  {
    hide Promotes, Counts;
    forall x | x in ids + {id} && Counts(v, reporter, x, me) && !Promotes(v, reporter, x, me)
      ensures At(w.reports, x) == Some(Reports(v.reports, x) + {reporter})
    {
      if x in ids {
        assert Reports(u.reports, x) == Reports(v.reports, x) + {reporter};
        assert Reports(v.reports, x) + {reporter} + {reporter} == Reports(v.reports, x) + {reporter};
      } else {
        assert At(u.reports, x) == At(v.reports, x);
        assert Reports(u.reports, x) == Reports(v.reports, x);
      }
    }
    forall x | !(x in ids + {id} && Counts(v, reporter, x, me)) ensures At(w.reports, x) == At(v.reports, x) {
      assert At(u.reports, x) == At(v.reports, x);
    }
  }

  lemma SlotsOneMore(v: View, reporter: string, ids: set<string>, myself: Node, u: View, id: string, w: View)
    requires WellFormed(v) && WellFormed(u)
    requires Since(v, reporter, ids, myself.id, u) && !Promotes(v, reporter, myself.id, myself.id)
    requires SlotsAfter(v, reporter, ids, myself, u) && SlotsAfter(u, reporter, {id}, myself, w)
    ensures SlotsAfter(v, reporter, ids + {id}, myself, w)
  {
    hide Promotes, Counts;
  }

  lemma ReportedOneMore(v: View, reporter: string, ids: set<string>, myself: Node, u: View, id: string, w: View)
    requires WellFormed(v) && WellFormed(u) && WellFormed(w)
    requires Reported(v, reporter, ids, myself, u) && Reported(u, reporter, {id}, myself, w)
    ensures Reported(v, reporter, ids + {id}, myself, w)
  {
    assert Since(v, reporter, ids, myself.id, u) by { forall x { PromotesOnce(v, reporter, ids, myself.id, u, x); } }
    hide Since, FlagsAfter, ReportsAfter, SlotsAfter;
    FlagsOneMore(v, reporter, ids, myself.id, u, id, w);
    ReportsOneMore(v, reporter, ids, myself.id, u, id, w);
    SlotsOneMore(v, reporter, ids, myself, u, id, w);
  }

  /** A slot stays with its owner, or its owner is reported and FAIL now and the slot is this node's. */
  lemma SlotKeptOrTaken(v: View, reporter: string, ids: set<string>, myself: Node, w: View, j: nat)
    requires WellFormed(v) && WellFormed(w) && Reported(v, reporter, ids, myself, w) && j < |v.slots|
    ensures |w.slots| == |v.slots|
    ensures w.slots[j] == v.slots[j] ||
            (v.slots[j] != null && v.slots[j].id in ids && v.slots[j].id in w.nodes && Fail in w.flags[v.slots[j].id] &&
             w.slots[j] == myself)
  {}

  lemma LearnedSlots(v: View, infos: seq<NodeInfo>, now: int, me: string, w: View)
    requires WellFormed(v) && WellFormed(w) && Learned(v, infos, now, me, w)
    ensures SlotsReturned(v, infos, now, me, w)
    ensures NothingDue(v, infos, now, me) ==> w.slots == v.slots
  {}

  lemma SameNodes(v: View, reporter: string, ids: set<string>, myself: Node, w: View)
    requires WellFormed(v) && WellFormed(w) && Reported(v, reporter, ids, myself, w)
    ensures w.nodes == v.nodes
  {}

  lemma SameReturns(v: View, infos: seq<NodeInfo>, now: int, me: string, u: View, w: View)
    requires SlotsReturned(v, infos, now, me, u) && w.nodes == u.nodes && w.slots == u.slots
    ensures SlotsReturned(v, infos, now, me, w)
  {
    hide Due, Covers, Owed;
    forall j: nat | j < |v.slots| ensures SlotReturned(v, infos, now, me, w, j) {
      assert SlotReturned(v, infos, now, me, u, j);
      assert Heir(v, infos, now, me, u, j) <==> Heir(v, infos, now, me, w, j);
    }
  }

  // -------------------------------------------------------------- whole messages

  /** The node is promoted by a message: not heard of in it, and its report reaches the threshold. */
  predicate Fails(v: View, reporter: string, infos: seq<NodeInfo>, pfail: seq<string>, now: int, me: string, all: set<string>, id: string)
    requires WellFormed(v) && id in v.nodes
  {
    reporter != "" && id in pfail && id != me && id != reporter && !HeardOf(infos, id, now) &&
    HasFail(v.flags[id]) && Fail !in v.flags[id] && |Reports(v.reports, id) + {reporter}| >= Threshold(all, me)
  }

  /** What a message says of a node known before it: heard of, reported, or neither. */
  ghost predicate Told(v: View, reporter: string, infos: seq<NodeInfo>, pfail: seq<string>, now: int, me: string, w: View, id: string)
    requires WellFormed(v) && WellFormed(w) && id in v.nodes && id in w.nodes
  {
    && (id != me && HeardOf(infos, id, now) ==> !HasFail(w.flags[id]))
    && (id == me || !HeardOf(infos, id, now) ==>
          if Fails(v, reporter, infos, pfail, now, me, w.nodes.Keys, id) then Fail in w.flags[id] else w.flags[id] == v.flags[id])
    && (reporter != "" && id in pfail && id != me && id != reporter && !HeardOf(infos, id, now) &&
        !Fails(v, reporter, infos, pfail, now, me, w.nodes.Keys, id) ==>
          At(w.reports, id) == Some(Reports(v.reports, id) + {reporter}))
  }

  /** The nodes after a whole message. */
  ghost predicate Merged(v: View, reporter: string, infos: seq<NodeInfo>, pfail: seq<string>, now: int, me: string, w: View)
    requires WellFormed(v) && WellFormed(w)
  {
    && TableLearned(v, infos, me, w) && NumbersTold(v, infos, now, me, w)
    && (forall id :: id in v.nodes && id in w.nodes ==> Told(v, reporter, infos, pfail, now, me, w, id))
  }

  function Listed(reporter: string, pfail: seq<string>): set<string> { if reporter == "" then {} else set id | id in pfail }

  lemma ToldAt(v: View, reporter: string, infos: seq<NodeInfo>, pfail: seq<string>, now: int, me: string, u: View, w: View, id: string)
    requires WellFormed(v) && WellFormed(u) && WellFormed(w) && id in v.nodes && id in u.nodes && w.nodes == u.nodes
    requires id == me || !HeardOf(infos, id, now) ==> Untold(v, u, id)
    requires id != me && HeardOf(infos, id, now) ==> !HasFail(u.flags[id])
    requires if id in Listed(reporter, pfail) && Promotes(u, reporter, id, me) then Fail in w.flags[id] else w.flags[id] == u.flags[id]
    requires id in Listed(reporter, pfail) && Counts(u, reporter, id, me) && !Promotes(u, reporter, id, me) ==>
               At(w.reports, id) == Some(Reports(u.reports, id) + {reporter})
    ensures Told(v, reporter, infos, pfail, now, me, w, id)
  {
    hide HeardOf, HasFail, Threshold;
    if id == me || !HeardOf(infos, id, now) { assert Reports(u.reports, id) == Reports(v.reports, id); }
  }

  lemma ToldBy(v: View, reporter: string, infos: seq<NodeInfo>, pfail: seq<string>, now: int, me: string, u: View, w: View, id: string)
    requires WellFormed(v) && WellFormed(u) && WellFormed(w) && id in v.nodes && id in u.nodes && w.nodes == u.nodes
    requires StateLearned(v, infos, now, me, u)
    requires var ids := Listed(reporter, pfail); FlagsAfter(u, reporter, ids, me, w) && ReportsAfter(u, reporter, ids, me, w)
    ensures Told(v, reporter, infos, pfail, now, me, w, id)
  {
    hide HeardOf, HasFail, Threshold, Listed, Promotes, Counts, Told, Untold, Reports, At;
    ToldAt(v, reporter, infos, pfail, now, me, u, w, id);
  }

  /** The slots play no part in what is learned of the nodes. */
  lemma LearnedWithSlots(v: View, infos: seq<NodeInfo>, now: int, me: string, u: View, slots: seq<Node?>)
    requires WellFormed(v) && WellFormed(u) && Learned(v, infos, now, me, u)
    ensures WellFormed(u.(slots := slots))
    ensures TableLearned(v, infos, me, u.(slots := slots)) && StateLearned(v, infos, now, me, u.(slots := slots))
    ensures NumbersTold(v, infos, now, me, u.(slots := slots))
  {
    hide HeardOf, HasFail, TableLearned, NumbersTold, SlotsReturned;
    var w := u.(slots := slots);
    SameTable(v, infos, now, me, u, w);
    forall id | id == me || !HeardOf(infos, id, now) ensures Untold(v, w, id) { assert Untold(v, u, id); }
  }

  /** Learning, then reports: the message as a whole. */
  lemma MergedBy(v: View, reporter: string, infos: seq<NodeInfo>, pfail: seq<string>, now: int, myself: Node, u: View, w: View)
    requires WellFormed(v) && WellFormed(u) && WellFormed(w)
    requires TableLearned(v, infos, myself.id, u) && StateLearned(v, infos, now, myself.id, u) && NumbersTold(v, infos, now, myself.id, u)
    requires Reported(u, reporter, Listed(reporter, pfail), myself, w)
    ensures Merged(v, reporter, infos, pfail, now, myself.id, w)
  {
    hide Told, HeardOf, HasFail, FlagsAfter, ReportsAfter, SlotsAfter, StateLearned, TableLearned, NumbersTold;
    SameTable(v, infos, now, myself.id, u, w);
    forall id | id in v.nodes && id in w.nodes ensures Told(v, reporter, infos, pfail, now, myself.id, w, id) {
      ToldBy(v, reporter, infos, pfail, now, myself.id, u, w, id);
    }
  }

  /** Flags, reports and slots play no part in the table and its numbers. */
  lemma SameTable(v: View, infos: seq<NodeInfo>, now: int, me: string, u: View, w: View)
    requires WellFormed(v) && WellFormed(u) && WellFormed(w) && TableLearned(v, infos, me, u) && NumbersTold(v, infos, now, me, u)
    requires w.nodes == u.nodes && w.epochs == u.epochs && w.pongs == u.pongs && w.addrs == u.addrs
    ensures TableLearned(v, infos, me, w) && NumbersTold(v, infos, now, me, w)
  {
    hide Due, TableLearned;
    SameNodesLearned(v, infos, me, u, w);
    forall id | id in w.nodes ensures EpochTold(v, infos, now, me, w, id) && PongTold(v, infos, w, id) {
      assert EpochTold(v, infos, now, me, u, id) && PongTold(v, infos, u, id);
    }
  }

  lemma SameNodesLearned(v: View, infos: seq<NodeInfo>, me: string, u: View, w: View)
    requires WellFormed(v) && WellFormed(u) && WellFormed(w) && TableLearned(v, infos, me, u)
    requires w.nodes == u.nodes && w.epochs == u.epochs && w.pongs == u.pongs && w.addrs == u.addrs
    ensures TableLearned(v, infos, me, w)
  {
    forall id | id in v.nodes ensures Stays(v, w, id) { assert Stays(v, u, id); }
    forall id | id in w.nodes ensures Introduced(v, infos, w, id) { assert Introduced(v, infos, u, id); }
    forall i | 0 <= i < |infos| ensures Placed(infos[i], me, w) && Heeded(v, infos[i], me, w) {
      assert Placed(infos[i], me, u) && Heeded(v, infos[i], me, u);
    }
  }
}
