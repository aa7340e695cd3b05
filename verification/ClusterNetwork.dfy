/** Any number of members exchanging gossip, in any order, with loss, repetition and restarts. */
module ClusterNetwork {
  import opened SlotRanges
  import opened ClusterNode
  import opened ClusterTable
  import opened ClusterGossip
  import opened ClusterPersistence

  /** What an operator, a clock or a peer's sign of life makes a member do. */
  datatype Op =
    | Meet(id: string, addr: string)
    | Assign(slot: nat, id: string)
    | AssignRange(start: nat, end: nat, id: string)
    | Remove(slot: nat)
    | Forget(id: string)
    | Replicate(id: string)
    | Flush
    | Reset(hard: bool)
    | Answered(placeholder: string, id: string, addr: string)
    | Importing(slot: nat, id: string)
    | Migrating(slot: nat, id: string)
    | MarkStable(slot: nat)
    | BumpEpoch
    | SetNodeEpoch(id: string, epoch: int)
    | RemoveNode(id: string)
    | Hear(id: string)
    | Check(order: seq<string>, late: set<string>, stale: set<string>)

  datatype Act =
    | Local(at: nat, op: Op)
    | Send(at: nat, order: seq<string>)
    | Deliver(at: nat, message: nat, reporter: string, now: int)
    | Save(at: nat)
    | Crash(at: nat)

  /** What an operation leaves in the view. */
  ghost predicate Shows(c: Cluster, op: Op)
    reads c, c.objs
    requires c.Shape()
  {
    match op
    case Meet(id, addr) => id in c.nodes && c.nodes[id].addr == addr
    case Assign(slot, id) => slot < SLOT_COUNT && id in c.nodes ==> c.slots[slot] == c.nodes[id]
    case AssignRange(start, end, id) => end < SLOT_COUNT && id in c.nodes ==> forall j :: start <= j <= end ==> c.slots[j] == c.nodes[id]
    case Remove(slot) => slot < SLOT_COUNT ==> c.slots[slot] == null
    case Forget(id) => id != c.myself.id ==> id !in c.nodes
    case Replicate(id) => id in c.nodes && c.nodes[id] != c.myself ==> c.myself.masterId == id && Homeless(c)
    case Flush => Homeless(c)
    case Reset(hard) => c.nodes.Keys == {c.myself.id} && (hard ==> forall j :: 0 <= j < SLOT_COUNT ==> c.slots[j] == null)
    case Answered(placeholder, id, addr) => placeholder != id ==> id in c.nodes && placeholder !in c.nodes
    case Importing(slot, id) => id in c.nodes ==> slot in c.myself.importing
    case Migrating(slot, id) => id in c.nodes ==> slot in c.myself.migrating
    case MarkStable(slot) => slot !in c.myself.importing && slot !in c.myself.migrating
    case BumpEpoch => 0 < c.epoch
    case SetNodeEpoch(id, e) => id in c.nodes ==> c.nodes[id].epoch == e
    case RemoveNode(id) => id !in c.nodes
    case Hear(id) => id in c.nodes ==> !HasFail(c.nodes[id].flags) && id !in c.usurped
    case Check(order, late, stale) => forall id :: id in order && id in stale && id != c.myself.id ==> id !in c.nodes
  }

  /** No slot is held by the node itself. */
  ghost predicate Homeless(c: Cluster)
    reads c
  {
    forall j :: 0 <= j < |c.slots| ==> c.slots[j] != c.myself
  }

  predicate OnMarks(op: Op) { op.Importing? || op.Migrating? || op.MarkStable? || op.BumpEpoch? || op.SetNodeEpoch? }

  predicate OnSlots(op: Op) { op.Assign? || op.AssignRange? || op.Remove? || op.Replicate? || op.Flush? || op.Reset? }

  /** Every operation keeps a view valid and has its effect. A node is not made its own replica. */
  method Operate(c: Cluster, op: Op)
    requires c.Valid()
    modifies c, c.objs
    ensures c.Valid() && c.myself == old(c.myself) && Shows(c, op)
    ensures old(c.objs) <= c.objs && fresh(c.objs - old(c.objs))
  {
    hide InTable, Covers, Shows;
    if OnSlots(op) {
      OperateOnSlots(c, op);
    } else if OnMarks(op) {
      OperateOnMarks(c, op);
    } else if op.Hear? || op.Check? {
      OperateOnFailures(c, op);
    } else {
      OperateOnNodes(c, op);
    }
  }

  method OperateOnSlots(c: Cluster, op: Op)
    requires c.Valid() && OnSlots(op)
    modifies c, c.objs
    ensures c.Valid() && c.myself == old(c.myself) && c.objs == old(c.objs) && Shows(c, op)
  {
    hide InTable, Covers;
    match op
    case Assign(slot, id) => var _ := c.AssignSlot(slot, id);
    case AssignRange(start, end, id) => var _ := c.AssignSlotRange(start, end, id);
    case Remove(slot) => var _ := c.RemoveSlot(slot);
    case Replicate(id) => if id !in c.nodes || c.nodes[id] != c.myself { var _ := c.Replicate(id); }
    case Flush => c.FlushSlots();
    case Reset(hard) => c.Reset(hard);
  }

  method OperateOnMarks(c: Cluster, op: Op)
    requires c.Valid() && OnMarks(op)
    modifies c, c.objs
    ensures c.Valid() && c.myself == old(c.myself) && c.objs == old(c.objs) && Shows(c, op)
  {
    hide InTable, Covers;
    match op
    case Importing(slot, id) => c.SetSlotImporting(slot, id);
    case Migrating(slot, id) => c.SetSlotMigrating(slot, id);
    case MarkStable(slot) => c.myself.ClearSlotMigration(slot);
    case BumpEpoch => c.IncrementEpoch();
    case SetNodeEpoch(id, e) => c.UpdateNodeEpoch(id, e);
  }

  method OperateOnFailures(c: Cluster, op: Op)
    requires c.Valid() && (op.Hear? || op.Check?)
    modifies c, c.objs
    ensures c.Valid() && c.myself == old(c.myself) && c.objs == old(c.objs) && Shows(c, op)
  {
    hide InTable, Covers, GiveBack, Keep, HasFail;
    match op
    case Hear(id) => var _ := c.RecoverFailedNode(id);
    case Check(_, _, _) => CheckNodes(c, op);
  }

  method CheckNodes(c: Cluster, op: Op)
    requires c.Valid() && op.Check?
    modifies c, c.objs
    ensures c.Valid() && c.myself == old(c.myself) && c.objs == old(c.objs) && Shows(c, op)
  {
    hide InTable, Covers, HasFail;
    var bus := new ClusterBus(c);
    bus.CheckFailures(op.order, op.late, op.stale);
  }

  method OperateOnNodes(c: Cluster, op: Op)
    requires c.Valid() && (op.Meet? || op.Forget? || op.Answered? || op.RemoveNode?)
    modifies c, c.objs
    ensures c.Valid() && c.myself == old(c.myself) && Shows(c, op)
    ensures old(c.objs) <= c.objs && fresh(c.objs - old(c.objs))
  {
    hide InTable, Covers, GiveAll;
    match op
    case Meet(id, addr) => c.AddNode(id, addr);
    case Forget(id) => var _ := c.Forget(id);
    case Answered(placeholder, id, addr) => if placeholder != id { c.Introduce(placeholder, id, addr); }
    case RemoveNode(id) => c.RemoveNode(id);
  }

  /** A message is taken in. */
  method Receive(c: Cluster, reporter: string, p: Payload, now: int)
    requires c.Valid() && Bounded(p)
    modifies c, c.objs
    ensures c.Valid() && c.myself == old(c.myself) && c.epoch >= old(c.epoch) && c.epoch >= p.epoch
    ensures old(c.objs) <= c.objs && fresh(c.objs - old(c.objs))
  {
    hide InTable, Covers, Bounded;
    var bus := new ClusterBus(c);
    var _, _ := bus.ApplyGossipPayloadFrom(reporter, p, now);
  }

  /** A process comes up from a configuration saved at some time. */
  method Reboot(st: Saved) returns (d: Cluster)
    requires Sound(st)
    ensures d.Valid() && fresh(d) && fresh(d.objs) && d.epoch == st.epoch && st.nodes.Keys <= d.nodes.Keys
  {
    hide InTable, Covers, Sound;
    d := new Cluster.Blank(st.nodeId, st.addr);
    LoadState(d, st);
  }

  /** The members, apart from each other, and every message ever sent: a message stays and may arrive any number of times. */
  class Network {
    var members: seq<Cluster>
    var wire: seq<Payload>
    // what each member last managed to save
    var disks: seq<Saved>

    constructor (members: seq<Cluster>, disks: seq<Saved>)
      requires Apart(members) && forall i :: 0 <= i < |members| ==> members[i].Valid()
      requires |disks| == |members| && forall i :: 0 <= i < |disks| ==> Sound(disks[i])
      ensures Valid() && this.members == members && this.disks == disks && wire == []
    {
      this.members, this.disks, wire := members, disks, [];
    }

    ghost function Footprint(): set<object>
      reads this, members
    {
      (set i | 0 <= i < |members| :: members[i] as object) +
      (set i, o | 0 <= i < |members| && o in members[i].objs :: o as object)
    }

    ghost predicate Valid()
      reads this, members, Footprint()
    {
      Apart(members) && (forall i :: 0 <= i < |members| ==> members[i].Valid()) &&
      (forall k :: 0 <= k < |wire| ==> Bounded(wire[k])) &&
      |disks| == |members| && (forall i :: 0 <= i < |disks| ==> Sound(disks[i]))
    }

    /** A message, sent before, arrives at a member. */
    method Deliver(i: nat, k: nat, reporter: string, now: int)
      requires Valid() && i < |members| && k < |wire|
      modifies members[i], members[i].objs
      ensures Valid() && fresh(Footprint() - old(Footprint()))
      ensures members[i].epoch >= old(members[i].epoch) && members[i].epoch >= wire[k].epoch
    {
      Receive(members[i], reporter, wire[k], now);
      forall j | 0 <= j < |members| && j != i
        ensures members[j].Valid() && members[i].objs !! members[j].objs && members[i] != members[j]
      {
        assert old(members[i].objs) !! members[j].objs;
      }
    }

    /** A member's payload goes on the wire; it may never arrive. */
    method Send(i: nat, order: seq<string>)
      requires Valid() && i < |members|
      modifies this`wire
      ensures Valid() && Footprint() == old(Footprint())
      ensures (forall k :: 0 <= k < |order| ==> order[k] in members[i].nodes) ==>
                |wire| == |old(wire)| + 1 && wire[..|old(wire)|] == old(wire) && wire[|old(wire)|].epoch == members[i].epoch
    {
      if forall k :: 0 <= k < |order| ==> order[k] in members[i].nodes {
        var bus := new ClusterBus(members[i]);
        var p := bus.BuildGossipPayload(order);
        wire := wire + [p];
      }
    }

    method Local(i: nat, op: Op)
      requires Valid() && i < |members|
      modifies members[i], members[i].objs
      ensures Valid() && fresh(Footprint() - old(Footprint()))
    {
      Operate(members[i], op);
      forall j | 0 <= j < |members| && j != i
        ensures members[j].Valid() && members[i].objs !! members[j].objs && members[i] != members[j]
      {
        assert old(members[i].objs) !! members[j].objs;
      }
    }

    method Save(i: nat)
      requires Valid() && i < |members|
      modifies this`disks
      ensures Valid() && Footprint() == old(Footprint())
      ensures disks == old(disks)[i := disks[i]] && Records(disks[i], members[i])
    {
      hide InTable, Covers, Bounded, Records;
      var st := SaveConfig(members[i]);
      disks := disks[i := st];
    }

    /** A member dies and comes back from the configuration it last saved, however old. */
    method Restart(i: nat)
      requires Valid() && i < |members|
      modifies this`members
      ensures Valid() && fresh(Footprint() - old(Footprint())) && |members| == old(|members|)
      ensures fresh(members[i]) && members == old(members)[i := members[i]] && members[i].epoch == disks[i].epoch
    {
      var d := Reboot(disks[i]);
      ghost var was := members;
      members := members[i := d];
      assert forall j :: 0 <= j < |members| && j != i ==> members[j] == was[j] && members[j].Valid();
      assert Apart(members);
    }

    /**
      Over any script of actions every view stays valid: no node's epoch is above the view's, no
      entry of a message above the message's, and every slot is covered by its owner's ranges.
     */
    method Run(script: seq<Act>)
      requires Valid()
      modifies this, Footprint()
      ensures Valid()
    {
      var t := 0;
      while t < |script|
        invariant 0 <= t <= |script| && Valid() && fresh(Footprint() - old(Footprint()))
      {
        Step(script[t]);
        t := t + 1;
      }
    }

    method Step(a: Act)
      requires Valid()
      modifies this, Footprint()
      ensures Valid() && fresh(Footprint() - old(Footprint()))
    {
      if a.at >= |members| { return; }
      match a
      case Send(i, order) => Send(i, order);
      case Deliver(i, k, reporter, now) => if k < |wire| { Deliver(i, k, reporter, now); }
      case Local(i, op) => Local(i, op);
      case Save(i) => Save(i);
      case Crash(i) => Restart(i);
    }
  }

  /** No two members share a node object. */
  ghost predicate Apart(members: seq<Cluster>)
    reads members
  {
    forall i, j :: 0 <= i < |members| && 0 <= j < |members| && i != j ==>
      members[i] != members[j] && members[i].objs !! members[j].objs
  }
}
