/** The slot table: who owns what, and since which epoch. */
module ClusterTable {
  import opened SlotRanges
  import opened ClusterNode

  /** Every slot of `from` goes to `to`; a node is known by its id, not its object. */
  ghost function GiveAll(slots: seq<Node?>, from: string, to: Node): seq<Node?> {
    seq(|slots|, i requires 0 <= i < |slots| => if slots[i] != null && slots[i].id == from then to else slots[i])
  }

  /** Recovery gives back the listed slots that are still held under the id `mine`. */
  ghost function GiveBack(slots: seq<Node?>, rs: seq<SlotRange>, mine: string, to: Node): seq<Node?> {
    seq(|slots|, i requires 0 <= i < |slots| =>
      if Covers(rs, i) && slots[i] != null && slots[i].id == mine then to else slots[i])
  }

  ghost predicate OwnedBy(slots: seq<Node?>, i: nat, id: string) {
    i < |slots| && slots[i] != null && slots[i].id == id
  }

  lemma GiveBackMore(slots: seq<Node?>, rs: seq<SlotRange>, k: nat, mine: string, to: Node)
    requires k < |rs|
    ensures GiveBack(GiveBack(slots, rs[..k], mine, to), [rs[k]], mine, to) == GiveBack(slots, rs[..k + 1], mine, to)
  {
    assert rs[..k + 1] == rs[..k] + [rs[k]];
    forall i | 0 <= i < |slots|
      ensures GiveBack(GiveBack(slots, rs[..k], mine, to), [rs[k]], mine, to)[i] == GiveBack(slots, rs[..k + 1], mine, to)[i]
    {
      CoversConcat(rs[..k], [rs[k]], i);
    }
  }

  lemma DirtySoFar(slots: seq<Node?>, rs: seq<SlotRange>, k: nat, mine: string, to: Node, before: bool, now: bool)
    requires k < |rs|
    requires before <==> exists j: nat :: Covers(rs[..k], j) && OwnedBy(slots, j, mine)
    requires now <==> exists j: nat :: InRange(rs[k], j) && OwnedBy(GiveBack(slots, rs[..k], mine, to), j, mine)
    ensures before || now <==> exists j: nat :: Covers(rs[..k + 1], j) && OwnedBy(slots, j, mine)
  {
    var mid := GiveBack(slots, rs[..k], mine, to);
    assert rs[..k + 1] == rs[..k] + [rs[k]];
    forall j: nat
      ensures Covers(rs[..k + 1], j) <==> Covers(rs[..k], j) || InRange(rs[k], j)
      ensures OwnedBy(slots, j, mine) && !Covers(rs[..k], j) ==> OwnedBy(mid, j, mine)
      ensures OwnedBy(mid, j, mine) ==> OwnedBy(slots, j, mine)
    {
      CoversConcat(rs[..k], [rs[k]], j);
      CoversOne(rs[k], j);
    }
  }

  lemma SameWhenNothingReturned(slots: seq<Node?>, rs: seq<SlotRange>, mine: string, to: Node)
    ensures GiveBack(slots, rs, mine, to) != slots ==> exists j: nat :: Covers(rs, j) && OwnedBy(slots, j, mine)
  {
    if !(exists j: nat :: Covers(rs, j) && OwnedBy(slots, j, mine)) {
      forall i | 0 <= i < |slots| ensures GiveBack(slots, rs, mine, to)[i] == slots[i] {
        assert !OwnedBy(slots, i, mine) || !Covers(rs, i);
      }
      assert GiveBack(slots, rs, mine, to) == slots;
    }
  }

  /**
    A takeover followed by a return leaves the table as it was exactly when every slot of the
    failed node was held by the object now in the node table.
   */
  lemma TakeoverUndoneExactly(slots: seq<Node?>, rs: seq<SlotRange>, failed: string, me: Node, node: Node)
    requires forall j: nat :: Covers(rs, j) <==> OwnedBy(slots, j, failed)
    ensures GiveBack(GiveAll(slots, failed, me), rs, me.id, node) == GiveAll(slots, failed, node)
    ensures GiveBack(GiveAll(slots, failed, me), rs, me.id, node) == slots <==>
            forall i: nat :: OwnedBy(slots, i, failed) ==> slots[i] == node
  {
    var after := GiveBack(GiveAll(slots, failed, me), rs, me.id, node);
    forall i: nat | i < |slots| ensures after[i] == if OwnedBy(slots, i, failed) then node else slots[i] {
      assert Covers(rs, i) <==> OwnedBy(slots, i, failed);
    }
    assert after == GiveAll(slots, failed, node);
    if forall i: nat :: OwnedBy(slots, i, failed) ==> slots[i] == node {
      assert after == slots;
    } else {
      var i: nat :| OwnedBy(slots, i, failed) && slots[i] != node;
      assert after[i] != slots[i];
    }
  }

  /** A slot is given back exactly when it is listed and still held under this node's id. */
  lemma GiveBackAt(slots: seq<Node?>, rs: seq<SlotRange>, mine: string, to: Node, j: nat)
    requires j < |slots|
    ensures |GiveBack(slots, rs, mine, to)| == |slots|
    ensures GiveBack(slots, rs, mine, to)[j] == if Covers(rs, j) && OwnedBy(slots, j, mine) then to else slots[j]
  {}

  lemma GiveAllAt(slots: seq<Node?>, from: string, to: Node)
    ensures |GiveAll(slots, from, to)| == |slots|
    ensures forall j :: 0 <= j < |slots| ==>
              GiveAll(slots, from, to)[j] == if slots[j] != null && slots[j].id == from then to else slots[j]
  {}

  lemma NothingToGive(slots: seq<Node?>, from: string, to: Node)
    requires !exists j: nat :: OwnedBy(slots, j, from)
    ensures GiveAll(slots, from, to) == slots
  {
    forall j: nat | j < |slots| ensures GiveAll(slots, from, to)[j] == slots[j] { assert !OwnedBy(slots, j, from); }
  }

  class Cluster {
    var myself: Node
    var nodes: map<string, Node>
    var slots: seq<Node?>
    var epoch: int
    // failed node -> the peers that reported it
    var pfailReports: map<string, set<string>>
    // failed node -> the slots taken over from it
    var usurped: map<string, seq<SlotRange>>
    // every node object this member has in its table or its slots, or has had
    ghost var objs: set<Node>

    ghost predicate Shape()
      reads this
    {
      |slots| == SLOT_COUNT && myself in objs &&
      (forall id :: id in nodes ==> nodes[id] in objs && nodes[id].id == id) &&
      (forall i :: 0 <= i < |slots| && slots[i] != null ==> slots[i] in objs)
    }

    /** The object that owns a slot has a range covering it. */
    ghost predicate Coverage()
      reads this, objs
      requires Shape()
    {
      forall i :: 0 <= i < |slots| && slots[i] != null ==> Covers(slots[i].ranges, i)
    }

    ghost predicate EpochBound()
      reads this, objs
    {
      0 <= epoch && forall n :: n in objs ==> n.epoch <= epoch
    }

    ghost predicate RangesInTable()
      reads this, objs
    {
      (forall n :: n in objs ==> InTable(n.ranges)) && 
      (forall id :: id in usurped ==> InTable(usurped[id]) && |usurped[id]| > 0)
    }

    /** No node reports itself. */
    ghost predicate ReportsOfOthers()
      reads this
    {
      forall id :: id in pfailReports ==> id !in pfailReports[id]
    }

    ghost predicate Valid()
      reads this, objs
    {
      Shape() && Coverage() && EpochBound() && RangesInTable() && ReportsOfOthers()
    }

    /** A first start, with no saved configuration: every slot is the node's own. */
    constructor (id: string, addr: string)
      ensures Valid() && fresh(objs) && epoch == 0 && pfailReports == map[] && usurped == map[]
      ensures nodes.Keys == {id} && nodes[id] == myself && myself.id == id
      ensures forall i :: 0 <= i < SLOT_COUNT ==> slots[i] == myself
    {
      var me := new Node(id, addr, [Myself, Master], 0, 0);
      myself, nodes, epoch := me, map[id := me], 0;
      slots := seq(SLOT_COUNT, _ => me);
      pfailReports, usurped, objs := map[], map[], {me};
      new;
      me.AddSlotRange(0, SLOT_COUNT - 1);
    }

    /** The state before a saved configuration is read: the node alone, and no slot assigned. */
    constructor Blank(id: string, addr: string)
      ensures Valid() && fresh(objs) && objs == {myself} && epoch == 0 && nodes.Keys == {id} && nodes[id] == myself
      ensures myself.epoch == 0
      ensures myself.id == id && myself.addr == addr && myself.importing == map[] && myself.migrating == map[]
      ensures myself.ranges == [] && usurped == map[] && pfailReports == map[]
      ensures forall i :: 0 <= i < SLOT_COUNT ==> slots[i] == null
    {
      var me := new Node(id, addr, [Myself, Master], 0, 0);
      myself, nodes, epoch := me, map[id := me], 0;
      slots := seq(SLOT_COUNT, _ => null);
      pfailReports, usurped, objs := map[], map[], {me};
    }

    /** One slot changes hands, in the table and in the new owner's ranges. */
    method PutSlot(slot: nat, node: Node)
      requires Valid() && slot < SLOT_COUNT && node in objs
      modifies this`slots, node`ranges
      ensures Valid() && slots == old(slots)[slot := node]
      ensures forall j: nat :: Covers(node.ranges, j) <==> old(Covers(node.ranges, j)) || j == slot
    {
      slots := slots[slot := node];
      node.AddSlotRange(slot, slot);
    }

    /** The loop shared by forget, removal, stale cleanup and takeover. */
    method TakeSlots(from: string) returns (taken: seq<nat>)
      requires Valid()
      modifies this`slots, myself`ranges
      ensures Valid()
      ensures slots == GiveAll(old(slots), from, myself)
      ensures forall j: nat :: j in taken <==> j < SLOT_COUNT && old(slots)[j] != null && old(slots)[j].id == from
      ensures Distinct(taken)
      ensures forall j: nat :: Covers(myself.ranges, j) <==> old(Covers(myself.ranges, j)) || j in taken
    {
      taken := [];
      var i := 0;
      ghost var was := slots;
      while i < SLOT_COUNT
        invariant 0 <= i <= SLOT_COUNT && Valid()
        invariant forall j :: 0 <= j < i ==>
                    slots[j] == if was[j] != null && was[j].id == from then myself else was[j]
        invariant slots[i..] == was[i..]
        invariant forall j: nat :: j in taken <==> j < i && was[j] != null && was[j].id == from
        invariant Distinct(taken)
        invariant forall j: nat :: Covers(myself.ranges, j) <==> old(Covers(myself.ranges, j)) || j in taken
      {
        assert slots[i] == was[i] by { assert slots[i..][0] == was[i..][0]; }
        if slots[i] != null && slots[i].id == from {
          PutSlot(i, myself);
          taken := taken + [i];
        }
        i := i + 1;
      }
      assert slots == GiveAll(was, from, myself);
    }

    /** RemoveNode, and the removal of a stale node: its slots become this node's own. */
    method RemoveNode(id: string)
      requires Valid()
      modifies this`nodes, this`slots, myself`ranges
      ensures Valid() && nodes == old(nodes) - {id}
      ensures slots == GiveAll(old(slots), id, myself)
    {
      nodes := nodes - {id};
      var _ := TakeSlots(id);
    }

    /** CLUSTER FORGET: the same, but never for the node itself. */
    method Forget(id: string) returns (ok: bool)
      requires Valid()
      modifies this`nodes, this`slots, myself`ranges
      ensures Valid() && (ok <==> id != myself.id)
      ensures if ok then nodes == old(nodes) - {id} && slots == GiveAll(old(slots), id, myself)
              else nodes == old(nodes) && slots == old(slots)
    {
      ok := id != myself.id;
      if ok { RemoveNode(id); }
    }

    /** Takeover of a failed node's slots, recorded so that they can be given back. */
    method UsurpFailedNodeSlots(failed: string)
      requires Valid()
      modifies this`slots, this`usurped, myself`ranges
      ensures Valid() && slots == GiveAll(old(slots), failed, myself)
      ensures usurped - {failed} == old(usurped) - {failed}
      ensures (exists j: nat :: OwnedBy(old(slots), j, failed)) ==>
                failed in usurped && forall j: nat :: Covers(usurped[failed], j) <==> OwnedBy(old(slots), j, failed)
      ensures !(exists j: nat :: OwnedBy(old(slots), j, failed)) ==> usurped == old(usurped)
    {
      var taken := TakeSlots(failed);
      if |taken| > 0 {
        assert OwnedBy(old(slots), taken[0], failed) by { assert taken[0] in taken; }
        var ranges := MergeConsecutiveSlots(taken);
        assert Covers(ranges, taken[0]);
        usurped := usurped[failed := ranges];
      }
    }

    /** The node's ranges are recomputed from the table. */
    method RebuildMyselfSlotRanges()
      requires Valid()
      modifies myself`ranges
      ensures Valid()
      ensures forall j: nat :: Covers(myself.ranges, j) <==> OwnedBy(slots, j, myself.id)
      ensures Separated(myself.ranges)
    {
      var mine: seq<nat> := [];
      var i := 0;
      while i < SLOT_COUNT
        invariant 0 <= i <= SLOT_COUNT && Distinct(mine)
        invariant forall j: nat :: j in mine <==> j < i && OwnedBy(slots, j, myself.id)
      {
        assert i !in mine;
        if slots[i] != null && slots[i].id == myself.id { mine := mine + [i]; }
        i := i + 1;
      }
      var ranges := MergeConsecutiveSlots(mine);
      myself.ranges := ranges;
    }

    /** The next configuration epoch goes to one node: above every epoch in this view. */
    method StampNext(node: Node)
      requires Valid() && node in objs
      modifies this`epoch, node`epoch
      ensures Valid() && epoch == old(epoch) + 1 && node.epoch == epoch
      ensures forall n :: n in objs ==> old(n.epoch) < epoch
    {
      hide InTable, Covers;
      epoch := epoch + 1;
      node.epoch := epoch;
    }

    /** One range of the takeover list. */
    method ReturnRange(r: SlotRange, node: Node) returns (dirty: bool)
      requires Valid() && node in objs && r.end < SLOT_COUNT
      modifies this`slots, node`ranges
      ensures Valid() && slots == GiveBack(old(slots), [r], myself.id, node)
      ensures dirty <==> exists j: nat :: InRange(r, j) && OwnedBy(old(slots), j, myself.id)
    {
      dirty := false;
      ghost var was := slots;
      var i := r.start;
      while i <= r.end
        invariant r.start <= i && (i <= r.end + 1 || i == r.start) && Valid()
        invariant forall j :: 0 <= j < SLOT_COUNT ==>
                    slots[j] == if r.start <= j < i && was[j] != null && was[j].id == myself.id then node else was[j]
        invariant dirty <==> exists j: nat :: r.start <= j < i && OwnedBy(was, j, myself.id)
      {
        if slots[i] != null && slots[i].id == myself.id {
          PutSlot(i, node);
          dirty := true;
          assert OwnedBy(was, i, myself.id);
        }
        i := i + 1;
      }
      assert forall j: nat :: r.start <= j < i <==> InRange(r, j);
      forall j | 0 <= j < SLOT_COUNT ensures slots[j] == GiveBack(was, [r], myself.id, node)[j] {
        CoversOne(r, j);
      }
      assert slots == GiveBack(was, [r], myself.id, node);
    }

    /** Every range of the takeover list. */
    method ReturnRanges(rs: seq<SlotRange>, node: Node) returns (dirty: bool)
      requires Valid() && node in objs && InTable(rs)
      modifies this`slots, node`ranges
      ensures Valid() && slots == GiveBack(old(slots), rs, myself.id, node)
      ensures dirty <==> exists j: nat :: Covers(rs, j) && OwnedBy(old(slots), j, myself.id)
    {
      dirty := false;
      ghost var was := slots;
      var k := 0;
      assert slots == GiveBack(was, rs[..0], myself.id, node);
      while k < |rs|
        invariant 0 <= k <= |rs| && Valid()
        invariant slots == GiveBack(was, rs[..k], myself.id, node)
        invariant dirty <==> exists j: nat :: Covers(rs[..k], j) && OwnedBy(was, j, myself.id)
      {
        ghost var mid := slots;
        var d := ReturnRange(rs[k], node);
        GiveBackMore(was, rs, k, myself.id, node);
        assert dirty || d <==> exists j: nat :: Covers(rs[..k + 1], j) && OwnedBy(was, j, myself.id) by {
          DirtySoFar(was, rs, k, myself.id, node, dirty, d);
        }
        dirty := dirty || d;
        k := k + 1;
      }
      assert rs[..k] == rs;
    }

    /**
      A failed node is back: its flags and reports go, and the slots taken from it that are
      still held here are returned under an epoch above every epoch in this view.
     */
    method RecoverFailedNode(id: string) returns (dirty: bool)
      requires Valid()
      modifies this`slots, this`epoch, this`pfailReports, this`usurped, objs`flags, objs`epoch, objs`ranges
      ensures Valid() && epoch >= old(epoch)
      ensures id !in nodes ==> !dirty
      ensures !dirty ==> slots == old(slots) && epoch == old(epoch)
      ensures id in nodes && HasFail(old(nodes[id].flags)) ==> dirty
      ensures dirty && id in old(usurped) ==> epoch == old(epoch) + 1 && nodes[id].epoch == epoch
      ensures id in nodes ==> usurped == old(usurped) - {id} && pfailReports == old(pfailReports) - {id}
      ensures id in nodes ==> nodes[id].flags == Keep(old(nodes[id].flags), f => !FailFlag(f)) && !HasFail(nodes[id].flags)
      ensures forall n :: n in objs ==> n.epoch >= old(n.epoch)
      ensures forall n :: n in objs && (id in nodes ==> n != nodes[id]) ==> n.flags == old(n.flags) && n.epoch == old(n.epoch)
      ensures id !in nodes ==> usurped == old(usurped) && pfailReports == old(pfailReports)
      ensures id in nodes && id in old(usurped) ==>
                slots == GiveBack(old(slots), old(usurped)[id], myself.id, nodes[id])
      ensures id !in nodes || id !in old(usurped) ==>
                slots == old(slots) && epoch == old(epoch) && forall n :: n in objs ==> n.epoch == old(n.epoch)
      ensures dirty <==> id in nodes && (HasFail(old(nodes[id].flags)) || Withholds(old(usurped), old(slots), id))
      ensures slots != old(slots) ==>
                dirty && epoch == old(epoch) + 1 && nodes[id].epoch == epoch && forall n :: n in objs ==> old(n.epoch) < epoch
      ensures slots != old(slots) ==> forall j: nat :: Covers(myself.ranges, j) <==> OwnedBy(slots, j, myself.id)
    {
      if id !in nodes { return false; }
      var node := nodes[id];
      NoFailKept(node.flags);
      dirty := node.ClearFailFlag();
      pfailReports := pfailReports - {id};
      if id in usurped { dirty := ReturnUsurped(id, node, dirty); }
    }

    /** A slot on the node's record is still held under this node's id. */
    ghost predicate Withholds(records: map<string, seq<SlotRange>>, table: seq<Node?>, id: string)
      reads this
    {
      id in records && exists j: nat :: Covers(records[id], j) && OwnedBy(table, j, myself.id)
    }

    /** The recorded takeover is undone; any change to the view, here or before, takes a new epoch. */
    method ReturnUsurped(id: string, node: Node, changed: bool) returns (dirty: bool)
      requires Valid() && id in usurped && node in objs
      modifies this`slots, this`epoch, this`usurped, myself`ranges, node`ranges, node`epoch
      ensures Valid() && usurped == old(usurped) - {id}
      ensures slots == GiveBack(old(slots), old(usurped)[id], myself.id, node)
      ensures slots != old(slots) ==> dirty
      ensures dirty <==> changed || exists j: nat :: Covers(old(usurped)[id], j) && OwnedBy(old(slots), j, myself.id)
      ensures if dirty then epoch == old(epoch) + 1 && node.epoch == epoch && forall n :: n in objs ==> old(n.epoch) < epoch
              else epoch == old(epoch) && node.epoch == old(node.epoch)
      ensures dirty ==> forall j: nat :: Covers(myself.ranges, j) <==> OwnedBy(slots, j, myself.id)
    {
      var ranges := usurped[id];
      usurped := usurped - {id};
      dirty := ReturnRanges(ranges, node);
      SameWhenNothingReturned(old(slots), ranges, myself.id, node);
      dirty := dirty || changed;
      if dirty {
        RebuildMyselfSlotRanges();
        StampNext(node);
      }
    }

    /**
      A takeover and the return that follows it. Every slot the node owned is its own again, under the object now
      in the node table, and no other slot moves. An earlier record still outstanding is overwritten by a takeover
      that finds any slot, so what it lists stays here for good; one that finds none leaves it to be returned.
     */
    method TakeOverAndReturn(failed: string)
      requires Valid() && failed in nodes
      modifies this`slots, this`epoch, this`pfailReports, this`usurped, objs`flags, objs`epoch, objs`ranges
      ensures Valid() && usurped == old(usurped) - {failed}
      ensures (exists j: nat :: OwnedBy(old(slots), j, failed)) || failed !in old(usurped) ==>
                slots == GiveAll(old(slots), failed, nodes[failed]) &&
                (slots == old(slots) <==> forall i: nat :: OwnedBy(old(slots), i, failed) ==> old(slots)[i] == nodes[failed])
      ensures !(exists j: nat :: OwnedBy(old(slots), j, failed)) && failed in old(usurped) ==>
                slots == GiveBack(old(slots), old(usurped)[failed], myself.id, nodes[failed])
    {
      hide InTable, Covers, GiveAll, GiveBack, Keep;
      ghost var was := slots;
      UsurpFailedNodeSlots(failed);
      ghost var mid, record := slots, usurped;
      var _ := RecoverFailedNode(failed);
      if exists j: nat :: OwnedBy(was, j, failed) {
        TakeoverUndoneExactly(was, record[failed], failed, myself, nodes[failed]);
      } else {
        NothingToGive(was, failed, myself);
        NothingToGive(was, failed, nodes[failed]);
      }
    }

    // --------------------------------------------------- operator's commands

    /** AssignSlot: the new owner's epoch is above every epoch in this view. */
    method AssignSlot(slot: nat, id: string) returns (ok: bool)
      requires Valid()
      modifies this`slots, this`epoch, objs`ranges, objs`epoch, objs`importing, objs`migrating
      ensures Valid() && (ok <==> slot < SLOT_COUNT && id in nodes)
      ensures ok ==> slots == old(slots)[slot := nodes[id]] && epoch == old(epoch) + 1 && nodes[id].epoch == epoch
      ensures ok ==> forall n :: n in objs ==> old(n.epoch) < epoch
      ensures ok ==> slot !in myself.migrating && slot !in myself.importing
      ensures !ok ==> slots == old(slots) && epoch == old(epoch)
    {
      ok := slot < SLOT_COUNT && id in nodes;
      if !ok { return; }
      var node := nodes[id];
      PutSlot(slot, node);
      StampNext(node);
      myself.ClearSlotMigration(slot);
    }

    method AssignSlotRange(start: nat, end: nat, id: string) returns (ok: bool)
      requires Valid()
      modifies this`slots, this`epoch, objs`ranges, objs`epoch
      ensures Valid() && (ok <==> start <= end < SLOT_COUNT && id in nodes)
      ensures ok ==> forall j :: 0 <= j < SLOT_COUNT ==> slots[j] == if start <= j <= end then nodes[id] else old(slots)[j]
      ensures ok ==> epoch == old(epoch) + 1 && nodes[id].epoch == epoch && forall n :: n in objs ==> old(n.epoch) < epoch
      ensures !ok ==> slots == old(slots) && epoch == old(epoch)
    {
      ok := start < SLOT_COUNT && end < SLOT_COUNT && start <= end && id in nodes;
      if !ok { return; }
      var node := nodes[id];
      PutRange(start, end, node);
      StampNext(node);
    }

    /** A run of slots changes hands, in the table and in the new owner's ranges. */
    method PutRange(start: nat, end: nat, node: Node)
      requires Valid() && end < SLOT_COUNT && node in objs
      modifies this`slots, node`ranges
      ensures Valid()
      ensures forall j :: 0 <= j < SLOT_COUNT ==> slots[j] == if start <= j <= end then node else old(slots)[j]
    {
      var table := FillRange(slots, start, end, node);
      slots := table;
      node.AddSlotRange(start, end);
    }

    static method FillRange(slots: seq<Node?>, start: nat, end: nat, node: Node) returns (table: seq<Node?>)
      requires end < |slots|
      ensures |table| == |slots|
      ensures forall j :: 0 <= j < |slots| ==> table[j] == if start <= j <= end then node else slots[j]
    {
      table := slots;
      var i := start;
      while i <= end
        invariant start <= i && (i <= end + 1 || i == start) && |table| == |slots|
        invariant forall j :: 0 <= j < |slots| ==> table[j] == if start <= j < i then node else slots[j]
      {
        table := table[i := node];
        i := i + 1;
      }
    }

    /** RemoveSlot: the slot is nobody's; of this node's own ranges exactly that slot is taken out. */
    method RemoveSlot(slot: nat) returns (ok: bool)
      requires Valid()
      modifies this`slots, myself`ranges
      ensures ok <==> slot < SLOT_COUNT
      ensures ok ==> slots == old(slots)[slot := null]
      ensures !ok ==> slots == old(slots)
      ensures forall j: nat :: Covers(myself.ranges, j) <==>
                old(Covers(myself.ranges, j)) && !(ok && j == slot && OwnedBy(old(slots), slot, myself.id))
      ensures Valid()
    {
      ok := slot < SLOT_COUNT;
      if !ok || slots[slot] == null { return; }
      var owner := slots[slot];
      slots := slots[slot := null];
      if owner.id == myself.id {
        var updated := RemoveFromRanges(myself.ranges, slot);
        myself.ranges := updated;
      }
    }

    /**
      CLUSTER REPLICATE hands this node's slots to its master and drops its own ranges. That
      keeps the table covered exactly when the master is another node or there was nothing to
      hand over.
     */
    method Replicate(master: string) returns (ok: bool)
      requires Valid()
      modifies this`slots, objs`ranges, myself`flags, myself`masterId
      ensures Shape() && (ok <==> master in nodes)
      ensures !ok ==> slots == old(slots) && Valid()
      ensures ok ==> forall i :: 0 <= i < SLOT_COUNT ==> slots[i] == if old(slots)[i] == myself then nodes[master] else old(slots)[i]
      ensures ok ==> myself.masterId == master && myself.flags == [Slave, Myself] && myself.ranges == []
      ensures ok ==> (Valid() <==> nodes[master] != myself || forall i :: 0 <= i < SLOT_COUNT ==> old(slots)[i] != myself)
    {
      ok := master in nodes;
      if !ok { return; }
      var node := nodes[master];
      myself.SetRoleAsSlave(master);
      HandOver(node);
      myself.ranges := [];
    }

    method HandOver(node: Node)
      requires Valid() && node in objs
      modifies this`slots, node`ranges
      ensures Valid()
      ensures forall i :: 0 <= i < SLOT_COUNT ==> slots[i] == if old(slots)[i] == myself then node else old(slots)[i]
    {
      ghost var was := slots;
      var i := 0;
      while i < SLOT_COUNT
        invariant 0 <= i <= SLOT_COUNT && Valid()
        invariant forall j :: 0 <= j < SLOT_COUNT ==> slots[j] == if j < i && was[j] == myself then node else was[j]
      {
        if slots[i] == myself { PutSlot(i, node); }
        i := i + 1;
      }
    }

    /** CLUSTER FLUSHSLOTS. */
    method FlushSlots()
      requires Valid()
      modifies this`slots, myself`ranges
      ensures Valid()
      ensures forall i :: 0 <= i < SLOT_COUNT ==> slots[i] == if old(slots)[i] == myself then null else old(slots)[i]
      ensures myself.ranges == []
    {
      var table := slots;
      var i := 0;
      while i < SLOT_COUNT
        invariant 0 <= i <= SLOT_COUNT && |table| == SLOT_COUNT
        invariant forall j :: 0 <= j < SLOT_COUNT ==> table[j] == if j < i && slots[j] == myself then null else slots[j]
      {
        if table[i] == myself { table := table[i := null]; }
        i := i + 1;
      }
      slots := table;
      myself.ranges := [];
    }

    /** CLUSTER RESET: the other nodes go, and either every slot or those of the others. */
    method Reset(hard: bool)
      requires Valid()
      modifies this`nodes, this`slots, this`epoch, myself`ranges, myself`flags, myself`masterId
      ensures Valid() && nodes == map[myself.id := myself] && epoch == old(epoch) + 1
      ensures myself.masterId == "" && myself.flags == [Master, Myself]
      ensures forall i :: 0 <= i < SLOT_COUNT ==> slots[i] == if !hard && old(slots)[i] == myself then myself else null
      ensures forall j: nat :: Covers(myself.ranges, j) <==> j < SLOT_COUNT && slots[j] == myself
    {
      nodes := map[myself.id := myself];
      var table := slots;
      var i := 0;
      while i < SLOT_COUNT
        invariant 0 <= i <= SLOT_COUNT && |table| == SLOT_COUNT
        invariant forall j :: 0 <= j < SLOT_COUNT ==> table[j] == if j < i && (hard || slots[j] != myself) then null else slots[j]
      {
        if hard || table[i] != myself { table := table[i := null]; }
        i := i + 1;
      }
      slots := table;
      if hard { myself.ranges := []; } else { RebuildMyselfSlotRanges(); }
      myself.SetRoleAsMaster();
      epoch := epoch + 1;
    }

    /** A node met by address starts at epoch 0. */
    method AddNode(id: string, addr: string)
      requires Valid()
      modifies this`nodes, this`objs
      ensures Valid() && id in nodes && nodes == old(nodes)[id := nodes[id]]
      ensures fresh(nodes[id]) && objs == old(objs) + {nodes[id]} && nodes[id].addr == addr && nodes[id].epoch == 0 &&
              nodes[id].flags == []
    {
      var node := new Node(id, addr, [], 0, 0);
      nodes, objs := nodes[id := node], objs + {node};
    }

    /** The answer to MEET: the real node takes the place of the one that stood for it. */
    method Introduce(placeholder: string, id: string, addr: string)
      requires Valid() && placeholder != id
      modifies this`nodes, this`objs
      ensures Valid() && slots == old(slots) && id in nodes && placeholder !in nodes
      ensures nodes - {id} == old(nodes) - {id} - {placeholder} && (id in old(nodes) ==> nodes[id] == old(nodes)[id])
      ensures old(objs) <= objs && fresh(objs - old(objs))
    {
      hide InTable, Covers;
      nodes := nodes - {placeholder};
      if id !in nodes { AddNode(id, addr); }
    }

    /** SETSLOT IMPORTING, for a source that is known. */
    method SetSlotImporting(slot: nat, source: string)
      requires Valid()
      modifies myself`importing
      ensures Valid()
      ensures myself.importing == if source in nodes then old(myself.importing)[slot := nodes[source].addr] else old(myself.importing)
    {
      hide InTable, Covers;
      if source in nodes { myself.importing := myself.importing[slot := nodes[source].addr]; }
    }

    /** SETSLOT MIGRATING, for a target that is known. */
    method SetSlotMigrating(slot: nat, target: string)
      requires Valid()
      modifies myself`migrating
      ensures Valid()
      ensures myself.migrating == if target in nodes then old(myself.migrating)[slot := nodes[target].addr] else old(myself.migrating)
    {
      hide InTable, Covers;
      if target in nodes { myself.migrating := myself.migrating[slot := nodes[target].addr]; }
    }

    method IncrementEpoch()
      requires Valid()
      modifies this`epoch
      ensures Valid() && epoch == old(epoch) + 1
    {
      epoch := epoch + 1;
    }

    /** The view's epoch follows a node's; a node's own epoch may go down here. */
    method UpdateNodeEpoch(id: string, e: int)
      requires Valid()
      modifies this`epoch, objs`epoch
      ensures Valid() && epoch >= old(epoch)
      ensures id in nodes ==> nodes[id].epoch == e && epoch == if e > old(epoch) then e else old(epoch)
      ensures id !in nodes ==> epoch == old(epoch)
    {
      if id in nodes {
        nodes[id].epoch := e;
        if e > epoch { epoch := e; }
      }
    }
  }
}
