/** A node as one member of the cluster sees it. */
module ClusterNode {
  import opened SlotRanges

  datatype Flag = Master | Slave | Myself | Fail | PFail | Other(name: string)

  predicate FailFlag(f: Flag) { f.Fail? || f.PFail? }

  predicate HasFail(flags: seq<Flag>) { exists i :: 0 <= i < |flags| && FailFlag(flags[i]) }

  function Keep(flags: seq<Flag>, keep: Flag -> bool): seq<Flag> {
    if flags == [] then []
    else Keep(flags[..|flags| - 1], keep) + (if keep(flags[|flags| - 1]) then [flags[|flags| - 1]] else [])
  }

  lemma {:induction false} KeepExact(flags: seq<Flag>, keep: Flag -> bool, f: Flag)
    ensures f in Keep(flags, keep) <==> f in flags && keep(f)
  {
    if flags != [] {
      var n := |flags| - 1;
      KeepExact(flags[..n], keep, f);
      assert flags == flags[..n] + [flags[n]];
    }
  }

  lemma NoFailKept(flags: seq<Flag>)
    ensures !HasFail(Keep(flags, f => !FailFlag(f)))
  {
    var keep := (f: Flag) => !FailFlag(f);
    forall i | 0 <= i < |Keep(flags, keep)| ensures !FailFlag(Keep(flags, keep)[i]) {
      KeepExact(flags, keep, Keep(flags, keep)[i]);
    }
    assert Keep(flags, f => !FailFlag(f)) == Keep(flags, keep);
  }

  class Node {
    const id: string
    const addr: string
    var flags: seq<Flag>
    var masterId: string
    var epoch: int
    var pongRecv: int
    var ranges: seq<SlotRange>
    // slot -> address of the other side
    var importing: map<nat, string>
    var migrating: map<nat, string>

    constructor (id: string, addr: string, flags: seq<Flag>, epoch: int, pongRecv: int)
      ensures this.id == id && this.addr == addr && this.flags == flags && this.epoch == epoch
      ensures this.pongRecv == pongRecv && masterId == "" && ranges == [] && importing == map[] && migrating == map[]
    {
      this.id, this.addr, this.flags, this.epoch, this.pongRecv := id, addr, flags, epoch, pongRecv;
      masterId, ranges, importing, migrating := "", [], map[], map[];
    }

    /** The node's ranges gain exactly the given slots. */
    method AddSlotRange(start: nat, end: nat)
      modifies this`ranges
      ensures forall j: nat :: Covers(ranges, j) <==> Covers(old(ranges), j) || start <= j <= end
      ensures InTable(old(ranges)) && end < SLOT_COUNT ==> InTable(ranges)
    {
      forall j: nat ensures Covers(AddRange(ranges, start, end), j) <==> Covers(ranges, j) || start <= j <= end {
        AddRangeExact(ranges, start, end, j);
      }
      if InTable(ranges) && end < SLOT_COUNT { AddRangeInTable(ranges, start, end); }
      if |ranges| > 0 {
        var last := ranges[|ranges| - 1];
        if last.start <= start <= last.end + 1 {
          if end > last.end { ranges := ranges[..|ranges| - 1] + [SlotRange(last.start, end)]; }
          return;
        }
      }
      ranges := ranges + [SlotRange(start, end)];
    }

    method HasSlot(slot: nat) returns (r: bool)
      ensures r <==> Covers(ranges, slot)
    {
      var i := 0;
      while i < |ranges|
        invariant 0 <= i <= |ranges| && forall k :: 0 <= k < i ==> !InRange(ranges[k], slot)
      {
        if ranges[i].start <= slot <= ranges[i].end { return true; }
        i := i + 1;
      }
      r := false;
    }

    /** Epoch and pong time only move forward. */
    method MergeGossipState(epoch: int, pongRecv: int)
      modifies this`epoch, this`pongRecv
      ensures this.epoch == (if epoch > old(this.epoch) then epoch else old(this.epoch))
      ensures this.pongRecv == (if pongRecv > old(this.pongRecv) then pongRecv else old(this.pongRecv))
    {
      if epoch > this.epoch { this.epoch := epoch; }
      if pongRecv > this.pongRecv { this.pongRecv := pongRecv; }
    }

    method HasFailFlag() returns (r: bool)
      ensures r <==> HasFail(flags)
    {
      var i := 0;
      while i < |flags|
        invariant 0 <= i <= |flags| && forall k :: 0 <= k < i ==> !FailFlag(flags[k])
      {
        if flags[i].Fail? || flags[i].PFail? { return true; }
        i := i + 1;
      }
      r := false;
    }

    method MarkPFail()
      modifies this`flags
      ensures flags == if HasFail(old(flags)) then old(flags) else old(flags) + [PFail]
      ensures HasFail(flags)
    {
      var failed := HasFailFlag();
      if !failed {
        flags := flags + [PFail];
        assert FailFlag(flags[|flags| - 1]);
      }
    }

    /** Both fail flags go and the others stay, in order; says whether there was one. */
    method ClearFailFlag() returns (hadFail: bool)
      modifies this`flags
      ensures flags == Keep(old(flags), f => !FailFlag(f))
      ensures hadFail <==> HasFail(old(flags))
    {
      var cleaned := [];
      hadFail := false;
      var i := 0;
      assert flags[..0] == [];
      while i < |flags|
        invariant 0 <= i <= |flags| && flags == old(flags)
        invariant cleaned == Keep(flags[..i], f => !FailFlag(f))
        invariant hadFail <==> exists k :: 0 <= k < i && FailFlag(flags[k])
      {
        assert flags[..i + 1][..i] == flags[..i];
        if flags[i].Fail? || flags[i].PFail? {
          hadFail := true;
        } else {
          cleaned := cleaned + [flags[i]];
        }
        i := i + 1;
      }
      assert flags[..i] == flags;
      flags := cleaned;
    }

    /** Promotion happens once: it leaves FAIL and no PFAIL. */
    method PromotePFailToFail() returns (promoted: bool)
      modifies this`flags
      ensures promoted <==> Fail !in old(flags)
      ensures !promoted ==> flags == old(flags)
      ensures promoted ==> Fail in flags && PFail !in flags
      ensures promoted ==> forall f :: f != Fail && f != PFail ==> (f in flags <==> f in old(flags))
    {
      if Fail in flags { return false; }
      flags := flags + [Fail];
      ghost var marked := flags;
      var cleaned := [];
      var i := 0;
      while i < |flags|
        invariant 0 <= i <= |flags| && flags == marked
        invariant forall f :: f in cleaned <==> f != PFail && f in flags[..i]
      {
        assert flags[..i + 1] == flags[..i] + [flags[i]];
        if flags[i] != PFail { cleaned := cleaned + [flags[i]]; }
        i := i + 1;
      }
      assert flags[..i] == flags;
      flags := cleaned;
      promoted := true;
    }

    method SetRoleAsSlave(master: string)
      modifies this`masterId, this`flags
      ensures masterId == master && flags == [Slave, Myself]
    {
      masterId, flags := master, [Slave, Myself];
    }

    method SetRoleAsMaster()
      modifies this`masterId, this`flags
      ensures masterId == "" && flags == [Master, Myself]
    {
      masterId, flags := "", [Master, Myself];
    }

    /** Neither direction of a migration of the slot is left. */
    method ClearSlotMigration(slot: nat)
      modifies this`importing, this`migrating
      ensures importing == old(importing) - {slot} && migrating == old(migrating) - {slot}
    {
      importing, migrating := importing - {slot}, migrating - {slot};
    }
  }
}
