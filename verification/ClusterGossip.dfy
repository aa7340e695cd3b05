/** Gossip between members: what is sent, how it is merged, how a failure is agreed. */
module ClusterGossip {
  import opened Basics
  import opened SlotRanges
  import opened ClusterNode
  import opened ClusterTable
  import opened ClusterMerge

  const GOSSIP_SECTION: nat := 3

  datatype OwnerEntry = OwnerEntry(nodeId: string, epoch: int, ranges: seq<SlotRange>)

  datatype Payload = Payload(epoch: int, owners: seq<OwnerEntry>, nodes: seq<NodeInfo>, pfail: seq<string>)

  /** No entry is ahead of the payload that carries it, and no range leaves the slot table. */
  predicate Bounded(p: Payload) {
    0 <= p.epoch &&
    (forall i :: 0 <= i < |p.owners| ==> p.owners[i].epoch <= p.epoch && InTable(p.owners[i].ranges)) &&
    (forall i :: 0 <= i < |p.nodes| ==> p.nodes[i].epoch <= p.epoch)
  }

  // ------------------------------------------------------------ slot arbitration

  /** A node that owns or claims a slot, with the epoch this view records for it. */
  datatype Party<N> = Party(who: N, recorded: int)

  /** A claim on one slot: the claimant, if it is known here, and the epoch it claims. */
  datatype Claim<N> = Claim(claimant: Option<Party<N>>, epoch: int)

  /** A claim wins over no owner, and over an owner recorded at a lower epoch. */
  function Contest<N>(owner: Option<Party<N>>, c: Claim<N>): Option<Party<N>> {
    if (owner.None? || owner.value.recorded < c.epoch) && c.claimant.Some? then c.claimant else owner
  }

  function Settle<N>(owner: Option<Party<N>>, claims: seq<Claim<N>>): Option<Party<N>> {
    if |claims| == 0 then owner else Contest(Settle(owner, claims[..|claims| - 1]), claims[|claims| - 1])
  }

  /** Every known claimant is recorded here at the epoch it claims. */
  predicate Consistent<N>(claims: seq<Claim<N>>) {
    forall i :: 0 <= i < |claims| && claims[i].claimant.Some? ==> claims[i].claimant.value.recorded == claims[i].epoch
  }

  /** Not below the old owner's epoch nor below any known claimant's. */
  predicate AtTop<N>(w: Option<Party<N>>, owner: Option<Party<N>>, claims: seq<Claim<N>>) {
    && (owner.Some? ==> w.Some? && owner.value.recorded <= w.value.recorded)
    && (forall i :: 0 <= i < |claims| && claims[i].claimant.Some? ==> w.Some? && claims[i].epoch <= w.value.recorded)
  }

  /** One pass leaves a slot with its old owner or a claimant, of maximal epoch among them all. */
  lemma {:induction false} SettleIsMaximal<N>(owner: Option<Party<N>>, claims: seq<Claim<N>>)
    requires Consistent(claims)
    ensures Settle(owner, claims) == owner || exists i :: 0 <= i < |claims| && claims[i].claimant == Settle(owner, claims)
    ensures AtTop(Settle(owner, claims), owner, claims)
  {
    if |claims| > 0 {
      var n := |claims| - 1;
      SettleIsMaximal(owner, claims[..n]);
      var w := Settle(owner, claims[..n]);
      assert forall i :: 0 <= i < n ==> claims[..n][i] == claims[i];
      if w != owner {
        var i :| 0 <= i < n && claims[..n][i].claimant == w;
        assert claims[i].claimant == w;
      }
      assert Settle(owner, claims) == Contest(w, claims[n]);
    }
  }

  /** No known claimant is recorded more than one below the epoch it claims. */
  predicate NoneBehind<N>(claims: seq<Claim<N>>) {
    forall i :: 0 <= i < |claims| && claims[i].claimant.Some? ==> claims[i].epoch <= claims[i].claimant.value.recorded + 1
  }

  /** The owner's record does not fall. */
  predicate Rises<N>(a: Option<Party<N>>, b: Option<Party<N>>) {
    a.Some? ==> b.Some? && a.value.recorded <= b.value.recorded
  }

  lemma {:induction false} SettleRises<N>(owner: Option<Party<N>>, claims: seq<Claim<N>>, k: nat)
    requires NoneBehind(claims) && k <= |claims|
    ensures Rises(Settle(owner, claims[..k]), Settle(owner, claims))
    decreases |claims|
  {
    var n := |claims|;
    if k == n {
      assert claims[..k] == claims;
    } else {
      assert claims[..n - 1][..k] == claims[..k];
      assert forall i :: 0 <= i < n - 1 ==> claims[..n - 1][i] == claims[i];
      SettleRises(owner, claims[..n - 1], k);
      assert Settle(owner, claims) == Contest(Settle(owner, claims[..n - 1]), claims[n - 1]);
    }
  }

  /** Up to any claim the second pass is still at the first one's outcome, or where the first pass was. */
  lemma {:induction false} SecondPass<N>(owner: Option<Party<N>>, claims: seq<Claim<N>>, k: nat)
    requires NoneBehind(claims) && k <= |claims|
    ensures var w := Settle(owner, claims);
            Settle(w, claims[..k]) == w || Settle(w, claims[..k]) == Settle(owner, claims[..k])
    decreases k
  {
    if k > 0 {
      SecondPass(owner, claims, k - 1);
      SettleRises(owner, claims, k - 1);
      assert claims[..k][..k - 1] == claims[..k - 1];
    }
  }

  /** Applying the same claims again changes no owner, unless a claimant is recorded more than one below its claim. */
  lemma SettleIsIdempotent<N>(owner: Option<Party<N>>, claims: seq<Claim<N>>)
    requires NoneBehind(claims)
    ensures Settle(Settle(owner, claims), claims) == Settle(owner, claims)
  {
    SecondPass(owner, claims, |claims|);
    assert claims[..|claims|] == claims;
  }

  /**
    For any claimant recorded more than one below its claim there is an owner and a rival, recorded at
    or above its own claim, with which the second application changes the owner again.
   */
  lemma StaleRecordFlips<N>(x: N, a: N, b: Party<N>, epoch: int) returns (owner: Option<Party<N>>, rival: Claim<N>)
    requires a != b.who && b.recorded + 1 < epoch
    ensures NoneBehind([rival])
    ensures var claims := [rival, Claim(Some(b), epoch)];
            Settle(owner, claims) == Some(b) && Settle(Settle(owner, claims), claims) == rival.claimant && rival.claimant != Some(b)
  {
    owner := Some(Party(x, b.recorded + 1));
    rival := Claim(Some(Party(a, epoch)), b.recorded + 1);
    var claims := [rival, Claim(Some(b), epoch)];
    var one := claims[..1];
    assert one[..0] == [] && one[0] == rival;
    assert forall o :: Settle(o, one) == Contest(o, rival);
    assert forall o :: Settle(o, claims) == Contest(Settle(o, one), claims[1]);
  }

  /** The claim against one owner, on objects. */
  ghost function Contested(owner: Node?, peer: Node?, epoch: int): Node?
    reads owner
  {
    if (owner == null || owner.epoch < epoch) && peer != null then peer else owner
  }

  ghost function OwnerOf(n: Node?): Option<Party<Node>>
    reads n
  {
    if n == null then None else var m: Node := n; Some(Party(m, m.epoch))
  }

  function ClaimOf(entry: OwnerEntry, known: map<string, Party<Node>>): Claim<Node> {
    Claim(if entry.nodeId in known then Some(known[entry.nodeId]) else None, entry.epoch)
  }

  /** The claims on one slot, in the payload's order. */
  function ClaimsOn(owners: seq<OwnerEntry>, slot: nat, known: map<string, Party<Node>>): seq<Claim<Node>> {
    if |owners| == 0 then []
    else
      ClaimsOn(owners[..|owners| - 1], slot, known) +
      if Covers(owners[|owners| - 1].ranges, slot) then [ClaimOf(owners[|owners| - 1], known)] else []
  }

  lemma SettleOneMore(owner: Option<Party<Node>>, owners: seq<OwnerEntry>, k: nat, slot: nat, known: map<string, Party<Node>>)
    requires k < |owners|
    ensures Settle(owner, ClaimsOn(owners[..k + 1], slot, known)) ==
            var before := Settle(owner, ClaimsOn(owners[..k], slot, known));
            if Covers(owners[k].ranges, slot) then Contest(before, ClaimOf(owners[k], known)) else before
  {
    var more := owners[..k + 1];
    assert more[..|more| - 1] == owners[..k] && more[|more| - 1] == owners[k];
    var before := ClaimsOn(owners[..k], slot, known);
    assert before + [] == before;
    if Covers(owners[k].ranges, slot) {
      assert (before + [ClaimOf(owners[k], known)])[..|before|] == before;
    }
  }

  /** The reporters that are nodes still known here, other than this one. */
  function Useful(voters: set<string>, all: set<string>, me: string): set<string> { voters * all - {me} }

  /** More than half of the known nodes say so, this one included. */
  predicate Majority(voters: set<string>, all: set<string>, me: string) { 2 * |voters * all + {me}| > |all| }

  /** A majority stands behind a failure exactly when the useful reporters alone reach the threshold. */
  lemma MajorityExact(voters: set<string>, all: set<string>, me: string)
    requires me in all
    ensures Majority(voters, all, me) <==> |Useful(voters, all, me)| >= Threshold(all, me)
  {
    assert voters * all + {me} == Useful(voters, all, me) + {me};
    assert all == (all - {me}) + {me};
  }

  /**
    Reporters that are all known and other than this node make a majority by reaching the
    threshold; of those that just reach it, no others do.
   */
  lemma ThresholdIsMajority(voters: set<string>, all: set<string>, me: string)
    requires me in all && |voters| >= Threshold(all, me)
    ensures voters <= all && me !in voters ==> Majority(voters, all, me)
    ensures |voters| == Threshold(all, me) ==> (Majority(voters, all, me) <==> voters <= all && me !in voters)
  {
    var useful := Useful(voters, all, me);
    MajorityExact(voters, all, me);
    if voters <= all && me !in voters {
      assert useful == voters;
    } else {
      var v :| v in voters && v !in useful;
      SmallerPart(useful, voters, v);
    }
  }

  lemma SmallerPart(part: set<string>, whole: set<string>, v: string)
    requires part <= whole && v in whole && v !in part
    ensures |part| < |whole|
  {
    PartSize(part, whole - {v});
  }

  lemma {:induction false} PartSize(part: set<string>, whole: set<string>)
    requires part <= whole
    ensures |part| <= |whole|
    decreases part
  {
    if part != {} {
      var x :| x in part;
      PartSize(part - {x}, whole - {x});
    }
  }

  lemma CountOneMore(ids: set<string>, rest: set<string>, me: string, id: string)
    requires rest <= ids && id in rest
    ensures |(ids - (rest - {id})) - {me}| == |(ids - rest) - {me}| + if id == me then 0 else 1
  {
    assert ids - (rest - {id}) == (ids - rest) + {id};
    if id == me {
      assert ((ids - rest) + {id}) - {me} == (ids - rest) - {me};
    } else {
      assert ((ids - rest) + {id}) - {me} == ((ids - rest) - {me}) + {id};
    }
  }

  function SlotSet(rs: seq<SlotRange>): set<nat> {
    set j | 0 <= j < SLOT_COUNT && Covers(rs, j)
  }

  lemma SlotSetMore(rs: seq<SlotRange>, k: nat)
    requires k < |rs|
    ensures SlotSet(rs[..k + 1]) == SlotSet(rs[..k]) + SlotSet([rs[k]])
  {
    assert rs[..k + 1] == rs[..k] + [rs[k]];
    forall j: nat ensures Covers(rs[..k + 1], j) <==> Covers(rs[..k], j) || Covers([rs[k]], j) {
      CoversConcat(rs[..k], [rs[k]], j);
    }
  }

  lemma NoSlots(rs: seq<SlotRange>)
    requires |rs| == 0
    ensures SlotSet(rs) == {}
  {}

  function EntrySlots(entry: OwnerEntry, me: string, own: bool): set<nat> {
    if (entry.nodeId == me) == own then SlotSet(entry.ranges) else {}
  }

  /** The slots some entry claims, for this node (`own`) or for others. */
  function ClaimedSlots(owners: seq<OwnerEntry>, me: string, own: bool): set<nat> {
    if |owners| == 0 then {}
    else
      ClaimedSlots(owners[..|owners| - 1], me, own) + EntrySlots(owners[|owners| - 1], me, own)
  }

  /** The MIGRATING and IMPORTING marks that outlive the claims. */
  function MigratingLeft(mig: map<nat, string>, imp: map<nat, string>, own: set<nat>, others: set<nat>): map<nat, string> {
    mig - (others + (own * imp.Keys))
  }

  function ImportingLeft(mig: map<nat, string>, imp: map<nat, string>, own: set<nat>, others: set<nat>): map<nat, string> {
    imp - (own + (others * mig.Keys))
  }

  /** Two rounds of claims clear what one round with all of them clears. */
  lemma MarksCompose(mig: map<nat, string>, imp: map<nat, string>,
                     own: set<nat>, others: set<nat>, own2: set<nat>, others2: set<nat>)
    ensures MigratingLeft(MigratingLeft(mig, imp, own, others), ImportingLeft(mig, imp, own, others), own2, others2) ==
            MigratingLeft(mig, imp, own + own2, others + others2)
    ensures ImportingLeft(MigratingLeft(mig, imp, own, others), ImportingLeft(mig, imp, own, others), own2, others2) ==
            ImportingLeft(mig, imp, own + own2, others + others2)
  {}

  function If(c: bool, s: set<nat>): set<nat> { if c then s else {} }

  lemma MarksGrow(mig: map<nat, string>, imp: map<nat, string>, own: bool, a: set<nat>, b: set<nat>)
    ensures MigratingLeft(MigratingLeft(mig, imp, If(own, a), If(!own, a)), ImportingLeft(mig, imp, If(own, a), If(!own, a)),
                          If(own, b), If(!own, b)) == MigratingLeft(mig, imp, If(own, a + b), If(!own, a + b))
    ensures ImportingLeft(MigratingLeft(mig, imp, If(own, a), If(!own, a)), ImportingLeft(mig, imp, If(own, a), If(!own, a)),
                          If(own, b), If(!own, b)) == ImportingLeft(mig, imp, If(own, a + b), If(!own, a + b))
  {
    hide MigratingLeft, ImportingLeft;
    MarksCompose(mig, imp, If(own, a), If(!own, a), If(own, b), If(!own, b));
    assert If(own, a) + If(own, b) == If(own, a + b) && If(!own, a) + If(!own, b) == If(!own, a + b);
  }

  lemma NoMarksCleared(mig: map<nat, string>, imp: map<nat, string>)
    ensures MigratingLeft(mig, imp, {}, {}) == mig && ImportingLeft(mig, imp, {}, {}) == imp
  {}

  /** An entry of another node ends this node's migration of every slot it lists. */
  lemma {:induction false} ForeignRangeEndsMigration(owners: seq<OwnerEntry>, me: string, i: nat, slot: nat,
                                                     mig: map<nat, string>, imp: map<nat, string>)
    requires i < |owners| && owners[i].nodeId != me && slot < SLOT_COUNT && Covers(owners[i].ranges, slot)
    ensures slot in ClaimedSlots(owners, me, false)
    ensures slot !in MigratingLeft(mig, imp, ClaimedSlots(owners, me, true), ClaimedSlots(owners, me, false))
  {
    var n := |owners| - 1;
    if i < n {
      ForeignRangeEndsMigration(owners[..n], me, i, slot, mig, imp);
    } else {
      assert slot in EntrySlots(owners[n], me, false);
    }
  }

  /** An entry of this node (`own`), or of another, lists the slot. */
  ghost predicate Claims(owners: seq<OwnerEntry>, me: string, own: bool, slot: nat) {
    exists i :: 0 <= i < |owners| && (owners[i].nodeId == me) == own && Covers(owners[i].ranges, slot)
  }

  lemma {:induction false} ClaimedExact(owners: seq<OwnerEntry>, me: string, own: bool, slot: nat)
    ensures slot in ClaimedSlots(owners, me, own) <==> slot < SLOT_COUNT && Claims(owners, me, own, slot)
  {
    hide Covers;
    if |owners| > 0 {
      var n := |owners| - 1;
      ClaimedExact(owners[..n], me, own, slot);
      if Claims(owners[..n], me, own, slot) {
        var i :| 0 <= i < n && (owners[..n][i].nodeId == me) == own && Covers(owners[..n][i].ranges, slot);
        assert owners[i] == owners[..n][i];
      }
      if Claims(owners, me, own, slot) {
        var i :| 0 <= i < |owners| && (owners[i].nodeId == me) == own && Covers(owners[i].ranges, slot);
        if i < n { assert owners[..n][i] == owners[i]; }
      }
    }
  }

  /**
    The marks left of `marks`: one goes if an entry of side `own` lists its slot, and if one of the other side
    does while the slot has the `other` mark too. What is left keeps its address.
   */
  ghost predicate Outlives(marks: map<nat, string>, other: map<nat, string>, owners: seq<OwnerEntry>, me: string, own: bool,
                           left: map<nat, string>)
  {
    && (forall slot: nat :: slot in left <==>
          slot in marks && !(slot < SLOT_COUNT && (Claims(owners, me, own, slot) || (Claims(owners, me, !own, slot) && slot in other))))
    && (forall slot: nat :: slot in left && slot in marks ==> left[slot] == marks[slot])
  }

  lemma OutlivesExact(marks: map<nat, string>, other: map<nat, string>, owners: seq<OwnerEntry>, me: string, own: bool)
    ensures Outlives(marks, other, owners, me, own,
                     marks - (ClaimedSlots(owners, me, own) + (ClaimedSlots(owners, me, !own) * other.Keys)))
  {
    hide ClaimedSlots, Claims;
    var left := marks - (ClaimedSlots(owners, me, own) + (ClaimedSlots(owners, me, !own) * other.Keys));
    forall slot: nat
      ensures slot in left <==>
              slot in marks && !(slot < SLOT_COUNT && (Claims(owners, me, own, slot) || (Claims(owners, me, !own, slot) && slot in other)))
    {
      ClaimedExact(owners, me, own, slot);
      ClaimedExact(owners, me, !own, slot);
    }
  }

  /** MIGRATING marks are ended by other nodes' entries, IMPORTING marks by this node's. */
  ghost predicate MarksOutlive(mig: map<nat, string>, imp: map<nat, string>, owners: seq<OwnerEntry>, me: string,
                               mig': map<nat, string>, imp': map<nat, string>)
  {
    Outlives(mig, imp, owners, me, false, mig') && Outlives(imp, mig, owners, me, true, imp')
  }

  lemma MarksExact(mig: map<nat, string>, imp: map<nat, string>, owners: seq<OwnerEntry>, me: string)
    ensures MarksOutlive(mig, imp, owners, me,
                         MigratingLeft(mig, imp, ClaimedSlots(owners, me, true), ClaimedSlots(owners, me, false)),
                         ImportingLeft(mig, imp, ClaimedSlots(owners, me, true), ClaimedSlots(owners, me, false)))
  {
    hide ClaimedSlots, Outlives;
    OutlivesExact(mig, imp, owners, me, false);
    OutlivesExact(imp, mig, owners, me, true);
  }

  /** A claim beats the owner, and every other known claimant's record and claim stay below it and its own record. */
  ghost predicate OnTop(owner: Option<Party<Node>>, owners: seq<OwnerEntry>, i: nat, slot: nat, known: map<string, Party<Node>>)
    requires i < |owners|
  {
    && owners[i].nodeId in known && Covers(owners[i].ranges, slot)
    && (owner.Some? ==> owner.value.recorded < owners[i].epoch)
    && forall k :: 0 <= k < |owners| && k != i && owners[k].nodeId in known && Covers(owners[k].ranges, slot) ==>
         known[owners[k].nodeId].recorded < owners[i].epoch && owners[k].epoch <= known[owners[i].nodeId].recorded
  }

  /** Such a claimant gets the slot, wherever its entry stands. */
  lemma {:induction false} TopClaimWins(owner: Option<Party<Node>>, owners: seq<OwnerEntry>, i: nat, n: nat, slot: nat,
                                        known: map<string, Party<Node>>)
    requires i < |owners| && n <= |owners| && OnTop(owner, owners, i, slot, known)
    ensures var w := Settle(owner, ClaimsOn(owners[..n], slot, known));
            if i < n then w == Some(known[owners[i].nodeId]) else w.Some? ==> w.value.recorded < owners[i].epoch
    decreases n
  {
    hide Covers, ClaimsOn;
    if n == 0 {
      NoClaims(owners[..0], slot, known);
    } else {
      TopClaimWins(owner, owners, i, n - 1, slot, known);
      SettleOneMore(owner, owners, n - 1, slot, known);
    }
  }

  lemma NoClaims(owners: seq<OwnerEntry>, slot: nat, known: map<string, Party<Node>>)
    requires |owners| == 0
    ensures ClaimsOn(owners, slot, known) == []
  {}

  /** An owner recorded at or above every claim on its slot keeps it. */
  lemma {:induction false} OwnerStays(owner: Option<Party<Node>>, owners: seq<OwnerEntry>, n: nat, slot: nat,
                                      known: map<string, Party<Node>>)
    requires n <= |owners| && owner.Some?
    requires forall k :: 0 <= k < |owners| && Covers(owners[k].ranges, slot) ==> owners[k].epoch <= owner.value.recorded
    ensures Settle(owner, ClaimsOn(owners[..n], slot, known)) == owner
    decreases n
  {
    hide Covers, ClaimsOn;
    if n == 0 {
      NoClaims(owners[..0], slot, known);
    } else {
      OwnerStays(owner, owners, n - 1, slot, known);
      SettleOneMore(owner, owners, n - 1, slot, known);
    }
  }

  class ClusterBus {
    const cluster: Cluster

    constructor (cluster: Cluster)
      ensures this.cluster == cluster
    {
      this.cluster := cluster;
    }

    /** The claimant: this node itself, or whatever the node table has under the id. */
    function Peer(id: string): Node?
      reads cluster
    {
      if id == cluster.myself.id then cluster.myself else if id in cluster.nodes then cluster.nodes[id] else null
    }

    method ArbitrateSlot(entry: OwnerEntry, slot: nat) returns (dirty: bool)
      requires cluster.Valid() && slot < SLOT_COUNT
      modifies cluster`slots, cluster.objs`ranges
      ensures cluster.Valid()
      ensures cluster.slots == old(cluster.slots)[slot := Contested(old(cluster.slots)[slot], Peer(entry.nodeId), entry.epoch)]
      ensures dirty <==> cluster.slots != old(cluster.slots)
    {
      dirty := false;
      var current := cluster.slots[slot];
      if current == null || current.epoch < entry.epoch {
        var peer := Peer(entry.nodeId);
        if peer != null && current != peer {
          cluster.PutSlot(slot, peer);
          dirty := true;
          assert cluster.slots[slot] != old(cluster.slots)[slot];
        }
      }
    }

    method ArbitrateRange(entry: OwnerEntry, r: SlotRange) returns (dirty: bool)
      requires cluster.Valid() && r.end < SLOT_COUNT
      modifies cluster`slots, cluster.objs`ranges
      ensures cluster.Valid()
      ensures forall j: nat :: j < SLOT_COUNT ==>
                cluster.slots[j] == if InRange(r, j) then Contested(old(cluster.slots)[j], Peer(entry.nodeId), entry.epoch)
                                    else old(cluster.slots)[j]
      ensures cluster.slots != old(cluster.slots) ==> dirty
    {
      dirty := false;
      ghost var was := cluster.slots;
      var slot := r.start;
      while slot <= r.end
        invariant r.start <= slot && (slot <= r.end + 1 || slot == r.start) && cluster.Valid()
        invariant forall j: nat :: j < SLOT_COUNT ==>
                    cluster.slots[j] == if r.start <= j < slot then Contested(was[j], Peer(entry.nodeId), entry.epoch)
                                        else was[j]
        invariant cluster.slots != was ==> dirty
      {
        var d := ArbitrateSlot(entry, slot);
        dirty := dirty || d;
        slot := slot + 1;
      }
    }

    method ArbitrateEntry(entry: OwnerEntry) returns (dirty: bool)
      requires cluster.Valid() && InTable(entry.ranges)
      modifies cluster`slots, cluster.objs`ranges
      ensures cluster.Valid()
      ensures forall j: nat :: j < SLOT_COUNT ==>
                cluster.slots[j] == if Covers(entry.ranges, j)
                                    then Contested(old(cluster.slots)[j], Peer(entry.nodeId), entry.epoch)
                                    else old(cluster.slots)[j]
      ensures cluster.slots != old(cluster.slots) ==> dirty
    {
      dirty := false;
      ghost var was := cluster.slots;
      var k := 0;
      while k < |entry.ranges|
        invariant 0 <= k <= |entry.ranges| && cluster.Valid()
        invariant forall j: nat :: j < SLOT_COUNT ==>
                    cluster.slots[j] == if Covers(entry.ranges[..k], j)
                                        then Contested(was[j], Peer(entry.nodeId), entry.epoch) else was[j]
        invariant cluster.slots != was ==> dirty
      {
        var d := ArbitrateRange(entry, entry.ranges[k]);
        dirty := dirty || d;
        forall j: nat ensures Covers(entry.ranges[..k + 1], j) <==> Covers(entry.ranges[..k], j) || InRange(entry.ranges[k], j) {
          assert entry.ranges[..k + 1] == entry.ranges[..k] + [entry.ranges[k]];
          CoversConcat(entry.ranges[..k], [entry.ranges[k]], j);
          CoversOne(entry.ranges[k], j);
        }
        k := k + 1;
      }
      assert entry.ranges[..k] == entry.ranges;
    }

    /** Who is known here, and at which epoch. */
    ghost function Known(): map<string, Party<Node>>
      reads this, cluster, cluster.objs
      requires cluster.Shape()
    {
      (map id | id in cluster.nodes :: Party(cluster.nodes[id], cluster.nodes[id].epoch))
        [cluster.myself.id := Party(cluster.myself, cluster.myself.epoch)]
    }

    /** One entry is one claim on every slot it lists. */
    method ApplyClaim(entry: OwnerEntry) returns (dirty: bool)
      requires cluster.Valid() && InTable(entry.ranges)
      modifies cluster`slots, cluster.objs`ranges
      ensures cluster.Valid() && Known() == old(Known())
      ensures forall j: nat :: j < SLOT_COUNT ==>
                OwnerOf(cluster.slots[j]) == if Covers(entry.ranges, j)
                                             then Contest(OwnerOf(old(cluster.slots)[j]), ClaimOf(entry, Known()))
                                             else OwnerOf(old(cluster.slots)[j])
      ensures cluster.slots != old(cluster.slots) ==> dirty
    {
      hide InTable, Covers;
      dirty := ArbitrateEntry(entry);
    }

    /** Slot owner reconciliation: every slot goes to the outcome of the claims on it, in order. */
    method Arbitrate(owners: seq<OwnerEntry>) returns (dirty: bool)
      requires cluster.Valid() && forall i :: 0 <= i < |owners| ==> InTable(owners[i].ranges)
      modifies cluster`slots, cluster.objs`ranges
      ensures cluster.Valid() && Known() == old(Known())
      ensures forall j: nat :: j < SLOT_COUNT ==>
                OwnerOf(cluster.slots[j]) == Settle(OwnerOf(old(cluster.slots)[j]), ClaimsOn(owners, j, Known()))
      ensures cluster.slots != old(cluster.slots) ==> dirty
    {
      hide Covers, InTable, Contest, ClaimOf;
      dirty := false;
      ghost var was := cluster.slots;
      ghost var known := Known();
      var k := 0;
      assert owners[..0] == [];
      while k < |owners|
        invariant 0 <= k <= |owners| && cluster.Valid() && Known() == known
        invariant forall j: nat :: j < SLOT_COUNT ==>
                    OwnerOf(cluster.slots[j]) == Settle(OwnerOf(was[j]), ClaimsOn(owners[..k], j, known))
        invariant cluster.slots != was ==> dirty
      {
        var d := ApplyClaim(owners[k]);
        dirty := dirty || d;
        forall j: nat | j < SLOT_COUNT
          ensures OwnerOf(cluster.slots[j]) == Settle(OwnerOf(was[j]), ClaimsOn(owners[..k + 1], j, known))
        {
          SettleOneMore(OwnerOf(was[j]), owners, k, j, known);
        }
        k := k + 1;
      }
      assert owners[..k] == owners;
    }

    // -------------------------------------------------------------- learning nodes

    method FindNodeByAddr(addr: string) returns (found: bool)
      ensures found <==> exists id :: id in cluster.nodes && cluster.nodes[id].addr == addr
    {
      found := false;
      var rest := cluster.nodes.Keys;
      while rest != {}
        invariant rest <= cluster.nodes.Keys
        invariant forall id :: id in cluster.nodes && id !in rest ==> cluster.nodes[id].addr != addr
        decreases rest
      {
        var id :| id in rest;
        if cluster.nodes[id].addr == addr { return true; }
        rest := rest - {id};
      }
    }

    /** One entry of the gossip section: a known node is brought up to date, a new one is added. */
    method LearnNode(info: NodeInfo, now: int) returns (dirty: bool)
      requires cluster.Valid() && info.epoch <= cluster.epoch
      modifies cluster`nodes, cluster`objs, cluster`slots, cluster`epoch, cluster`pfailReports, cluster`usurped
      modifies cluster.objs`flags, cluster.objs`epoch, cluster.objs`ranges, cluster.objs`pongRecv
      ensures cluster.Valid() && cluster.epoch >= old(cluster.epoch)
      ensures cluster.slots != old(cluster.slots) ==> dirty
      ensures old(cluster.objs) <= cluster.objs && fresh(cluster.objs - old(cluster.objs))
      ensures Learned(old(ViewOf(cluster)), [info], now, cluster.myself.id, ViewOf(cluster))
      ensures info.id in cluster.nodes && info.id !in old(cluster.nodes) ==>
                var node := cluster.nodes[info.id];
                node.addr == info.addr && node.flags == info.flags && node.epoch == info.epoch && node.pongRecv == info.pongRecv
      ensures cluster.slots ==
                if info.id != cluster.myself.id && info.id in old(cluster.nodes) && info.id in old(cluster.usurped) &&
                   IsFresh(info.pongRecv, now)
                then GiveBack(old(cluster.slots), old(cluster.usurped)[info.id], cluster.myself.id, cluster.nodes[info.id])
                else old(cluster.slots)
    {
      hide GiveBack, InTable, Covers, Learned, Refreshed, ViewOf, IsFresh, WellFormed;
      dirty := false;
      ghost var v := ViewOf(cluster);
      if info.id == cluster.myself.id {
        SkippedLearns(v, info, now, cluster.myself.id);
      } else if info.id in cluster.nodes {
        TableIn(cluster);
        dirty := RefreshNode(cluster.nodes[info.id], info, now);
        TableIn(cluster);
        RefreshedLearns(v, info, now, cluster.myself.id, ViewOf(cluster));
      } else {
        var known := FindNodeByAddr(info.addr);
        if known {
          AddressIn(cluster, info.addr);
          SkippedLearns(v, info, now, cluster.myself.id);
        } else {
          AddLearned(info, now);
        }
      }
    }

    /** A node first heard of is added as it is described. */
    method AddLearned(info: NodeInfo, now: int)
      requires cluster.Valid() && info.epoch <= cluster.epoch && info.id !in cluster.nodes
      modifies cluster`nodes, cluster`objs
      ensures info.id in cluster.nodes
      ensures cluster.Valid() && cluster.objs == old(cluster.objs) + {cluster.nodes[info.id]} && fresh(cluster.nodes[info.id])
      ensures var node := cluster.nodes[info.id];
              node.addr == info.addr && node.flags == info.flags && node.epoch == info.epoch && node.pongRecv == info.pongRecv
      ensures Learned(old(ViewOf(cluster)), [info], now, cluster.myself.id, ViewOf(cluster))
    {
      hide Learned, InTable, Covers, FlagsOf, EpochsOf, PongsOf, AddrsOf, ViewOf, Extended, WellFormed;
      ghost var v := ViewOf(cluster);
      ViewParts(cluster);
      var node := new Node(info.id, info.addr, info.flags, info.epoch, info.pongRecv);
      AddNodeObject(node);
      ViewExtended(cluster, v, node);
      AddedLearns(v, info, node, now, cluster.myself.id, ViewOf(cluster));
    }

    method AddNodeObject(node: Node)
      requires cluster.Valid() && node.id !in cluster.nodes && node.epoch <= cluster.epoch && node.ranges == []
      modifies cluster`nodes, cluster`objs
      ensures cluster.Valid() && cluster.nodes == old(cluster.nodes)[node.id := node] && cluster.objs == old(cluster.objs) + {node}
    {
      hide Covers;
      cluster.nodes, cluster.objs := cluster.nodes[node.id := node], cluster.objs + {node};
    }

    /** The epoch and pong time in a report only move forward. */
    method MergeReport(node: Node, info: NodeInfo)
      requires cluster.Valid() && info.epoch <= cluster.epoch && info.id in cluster.nodes && cluster.nodes[info.id] == node
      modifies node`epoch, node`pongRecv
      ensures cluster.Valid() && node.epoch == Later(old(node.epoch), info.epoch)
      ensures Raised(old(ViewOf(cluster)), info, ViewOf(cluster))
    {
      hide InTable, Covers, ViewOf, FlagsOf, EpochsOf, PongsOf, AddrsOf, Later;
      ghost var v := ViewOf(cluster);
      ViewParts(cluster);
      FlagsAt(cluster.nodes);
      EpochsAt(cluster.nodes);
      PongsAt(cluster.nodes);
      MergeInto(node, info);
      FlagsAre(cluster.nodes, v.flags);
      EpochsAre(cluster.nodes, v.epochs[info.id := Later(v.epochs[info.id], info.epoch)]);
      PongsAre(cluster.nodes, v.pongs[info.id := Later(v.pongs[info.id], info.pongRecv)]);
      ViewParts(cluster);
    }

    method MergeInto(node: Node, info: NodeInfo)
      requires cluster.Valid() && info.epoch <= cluster.epoch && node in cluster.objs
      modifies node`epoch, node`pongRecv
      ensures cluster.Valid()
      ensures node.epoch == Later(old(node.epoch), info.epoch) && node.pongRecv == Later(old(node.pongRecv), info.pongRecv)
    {
      hide InTable, Covers;
      node.MergeGossipState(info.epoch, info.pongRecv);
    }

    /** RecoverFailedNode, as it shows in the view. */
    method Recover(id: string) returns (dirty: bool)
      requires cluster.Valid() && id in cluster.nodes
      modifies cluster`slots, cluster`epoch, cluster`pfailReports, cluster`usurped
      modifies cluster.objs`flags, cluster.objs`epoch, cluster.objs`ranges
      ensures cluster.Valid() && cluster.epoch >= old(cluster.epoch) && cluster.nodes[id].epoch >= old(cluster.nodes[id].epoch)
      ensures cluster.slots != old(cluster.slots) ==> dirty
      ensures !HasFail(cluster.nodes[id].flags) && id !in cluster.usurped
      ensures Recovered(old(ViewOf(cluster)), id, ViewOf(cluster))
      ensures cluster.slots == if id in old(cluster.usurped)
                               then GiveBack(old(cluster.slots), old(cluster.usurped)[id], cluster.myself.id, cluster.nodes[id])
                               else old(cluster.slots)
    {
      hide InTable, Covers, GiveBack, Keep, HasFail, ViewOf, FlagsOf, EpochsOf, PongsOf, AddrsOf, Recovered;
      ghost var v := ViewOf(cluster);
      ViewParts(cluster);
      FlagsAt(cluster.nodes);
      EpochsAt(cluster.nodes);
      PongsAt(cluster.nodes);
      dirty := cluster.RecoverFailedNode(id);
      PongsAre(cluster.nodes, v.pongs);
      ViewParts(cluster);
      FlagsAt(cluster.nodes);
      EpochsAt(cluster.nodes);
      if id !in v.usurped { EpochsAre(cluster.nodes, v.epochs); }
      RecoveredBy(v, id, ViewOf(cluster));
    }

    /** A known node is brought up to date; if it has answered lately, it is taken to be back. */
    method RefreshNode(node: Node, info: NodeInfo, now: int) returns (dirty: bool)
      requires cluster.Valid() && info.epoch <= cluster.epoch && info.id in cluster.nodes && cluster.nodes[info.id] == node
      modifies cluster`slots, cluster`epoch, cluster`pfailReports, cluster`usurped
      modifies cluster.objs`flags, cluster.objs`epoch, cluster.objs`ranges, cluster.objs`pongRecv
      ensures cluster.Valid() && cluster.epoch >= old(cluster.epoch) && node.epoch >= info.epoch
      ensures cluster.slots != old(cluster.slots) ==> dirty
      ensures Refreshed(old(ViewOf(cluster)), info, now, ViewOf(cluster))
      ensures IsFresh(info.pongRecv, now) ==> !HasFail(node.flags) && info.id !in cluster.usurped
      ensures cluster.slots == if IsFresh(info.pongRecv, now) && info.id in old(cluster.usurped)
                               then GiveBack(old(cluster.slots), old(cluster.usurped)[info.id], cluster.myself.id, node)
                               else old(cluster.slots)
    {
      hide InTable, Covers, GiveBack, HasFail, IsFresh, Refreshed, Raised, Recovered, ViewOf;
      ghost var v := ViewOf(cluster);
      MergeReport(node, info);
      dirty := RecoverIfFailed(node, info, now, v);
      var d := ReturnIfWithheld(node, info, now, v);
      dirty := dirty || d;
    }

    /** A node with a failure flag that has answered lately is back. */
    method RecoverIfFailed(node: Node, info: NodeInfo, now: int, ghost v: View) returns (dirty: bool)
      requires cluster.Valid() && info.id in cluster.nodes && cluster.nodes[info.id] == node
      requires WellFormed(v) && Raised(v, info, ViewOf(cluster))
      modifies cluster`slots, cluster`epoch, cluster`pfailReports, cluster`usurped
      modifies cluster.objs`flags, cluster.objs`epoch, cluster.objs`ranges
      ensures cluster.Valid() && cluster.epoch >= old(cluster.epoch) && node.epoch >= old(node.epoch)
      ensures cluster.slots != old(cluster.slots) ==> dirty
      ensures Refreshed(v, info, now, ViewOf(cluster)) && (IsFresh(info.pongRecv, now) ==> !HasFail(node.flags))
      ensures if info.id in cluster.usurped || info.id !in old(cluster.usurped)
              then cluster.slots == old(cluster.slots) && At(cluster.usurped, info.id) == old(At(cluster.usurped, info.id))
              else IsFresh(info.pongRecv, now) &&
                   cluster.slots == GiveBack(old(cluster.slots), old(cluster.usurped)[info.id], cluster.myself.id, node)
    {
      hide InTable, Covers, GiveBack, HasFail, IsFresh, Refreshed, Raised, Recovered, ViewOf, WellFormed, Later;
      dirty := false;
      ghost var u := ViewOf(cluster);
      FlagsIn(cluster, info.id);
      RaisedFlags(v, info, u);
      var failed := node.HasFailFlag();
      if failed && IsFresh(info.pongRecv, now) {
        dirty := Recover(info.id);
        RaisedAndRecovered(v, info, now, u, ViewOf(cluster));
      } else {
        RaisedOnly(v, info, now, u);
      }
    }

    /** Slots still withheld from a node without a failure flag are returned as well: the mark may be lost to a restart. */
    method ReturnIfWithheld(node: Node, info: NodeInfo, now: int, ghost v: View) returns (dirty: bool)
      requires cluster.Valid() && info.id in cluster.nodes && cluster.nodes[info.id] == node
      requires WellFormed(v) && Refreshed(v, info, now, ViewOf(cluster)) && (IsFresh(info.pongRecv, now) ==> !HasFail(node.flags))
      modifies cluster`slots, cluster`epoch, cluster`pfailReports, cluster`usurped
      modifies cluster.objs`flags, cluster.objs`epoch, cluster.objs`ranges
      ensures cluster.Valid() && cluster.epoch >= old(cluster.epoch) && node.epoch >= old(node.epoch)
      ensures cluster.slots != old(cluster.slots) ==> dirty
      ensures Refreshed(v, info, now, ViewOf(cluster))
      ensures IsFresh(info.pongRecv, now) ==> !HasFail(node.flags) && info.id !in cluster.usurped
      ensures cluster.slots == if IsFresh(info.pongRecv, now) && info.id in old(cluster.usurped)
                               then GiveBack(old(cluster.slots), old(cluster.usurped)[info.id], cluster.myself.id, node)
                               else old(cluster.slots)
    {
      hide InTable, Covers, GiveBack, HasFail, IsFresh, Refreshed, Recovered, ViewOf;
      dirty := false;
      ghost var u := ViewOf(cluster);
      var failed := node.HasFailFlag();
      if !failed && info.id in cluster.usurped && IsFresh(info.pongRecv, now) {
        dirty := Recover(info.id);
        RefreshedAgain(v, info, now, u, ViewOf(cluster));
      }
    }

    // ---------------------------------------------------------- failure agreement

    /** Non-self nodes in the table. */
    static method CountOthers(ids: set<string>, me: string) returns (n: nat)
      ensures n == |ids - {me}|
    {
      n := 0;
      var rest := ids;
      while rest != {}
        invariant rest <= ids && n == |(ids - rest) - {me}|
        decreases rest
      {
        var id :| id in rest;
        CountOneMore(ids, rest, me, id);
        if id != me { n := n + 1; }
        rest := rest - {id};
      }
      assert ids - {} == ids;
    }

    method RecordReport(reporter: string, id: string) returns (reports: set<string>)
      requires cluster.Valid() && id != reporter
      modifies cluster`pfailReports
      ensures cluster.Valid() && reports == Voters(old(cluster.pfailReports), reporter, id) && id !in reports
      ensures cluster.pfailReports == old(cluster.pfailReports)[id := reports]
    {
      hide InTable, Covers;
      reports := (if id in cluster.pfailReports then cluster.pfailReports[id] else {}) + {reporter};
      cluster.pfailReports := cluster.pfailReports[id := reports];
    }

    /**
      One report that `id` has failed. The node is promoted to FAIL exactly when it carries a
      failure mark here, this member's own or one learned with the node, and the distinct reporters
      so far, none of them the node itself, reach the threshold; its slots are then taken over. The
      reporters are a majority of the known nodes with this one exactly when those of them still
      known and other than this one reach it too.
     */
    method ReportFailure(reporter: string, id: string) returns (promoted: bool)
      requires cluster.Valid()
      modifies cluster`slots, cluster`usurped, cluster`pfailReports, cluster.objs`flags, cluster.myself`ranges
      ensures cluster.Valid()
      ensures promoted <==> Promotable(old(cluster.pfailReports), reporter, id) && old(Suspect(id))
      ensures promoted ==> Fail in cluster.nodes[id].flags && cluster.slots == GiveAll(old(cluster.slots), id, cluster.myself)
      ensures promoted ==> id !in Voters(old(cluster.pfailReports), reporter, id) && id !in cluster.pfailReports
      ensures var voters, all, me := Voters(old(cluster.pfailReports), reporter, id), cluster.nodes.Keys, cluster.myself.id;
              promoted && me in all && voters <= all && me !in voters ==> Majority(voters, all, me)
      ensures !promoted ==> cluster.slots == old(cluster.slots) && cluster.usurped == old(cluster.usurped)
      ensures !promoted ==> forall n :: n in cluster.objs ==> n.flags == old(n.flags)
      ensures forall n :: n in cluster.objs && (id in cluster.nodes ==> n != cluster.nodes[id]) ==> n.flags == old(n.flags)
      ensures !(id in cluster.nodes && id != cluster.myself.id && id != reporter) ==> cluster.pfailReports == old(cluster.pfailReports)
      ensures cluster.pfailReports - {id} == old(cluster.pfailReports) - {id}
      ensures !promoted && id in cluster.nodes && id != cluster.myself.id && id != reporter ==>
                id in cluster.pfailReports && cluster.pfailReports[id] == Voters(old(cluster.pfailReports), reporter, id)
    {
      hide InTable, Covers, GiveAll, HasFail, Voters, Threshold, Majority;
      promoted := false;
      if id == cluster.myself.id || id == reporter || id !in cluster.nodes { return; }
      var reached := Tally(reporter, id);
      if reached {
        promoted := Promote(id);
        if cluster.myself.id in cluster.nodes {
          ThresholdIsMajority(Voters(old(cluster.pfailReports), reporter, id), cluster.nodes.Keys, cluster.myself.id);
        }
      }
    }

    /** The report is recorded and the reporters counted. */
    method Tally(reporter: string, id: string) returns (reached: bool)
      requires cluster.Valid() && id != reporter
      modifies cluster`pfailReports
      ensures cluster.Valid()
      ensures cluster.pfailReports == old(cluster.pfailReports)[id := Voters(old(cluster.pfailReports), reporter, id)]
      ensures id !in Voters(old(cluster.pfailReports), reporter, id)
      ensures reached <==> |Voters(old(cluster.pfailReports), reporter, id)| >= Threshold(cluster.nodes.Keys, cluster.myself.id)
    {
      hide InTable, Covers;
      var reports := RecordReport(reporter, id);
      var others := CountOthers(cluster.nodes.Keys, cluster.myself.id);
      var threshold := (others + 1) / 2;
      reached := |reports| >= threshold;
    }

    /** Everyone who has reported the node, with the latest reporter. */
    static function Voters(reports: map<string, set<string>>, reporter: string, id: string): set<string> {
      Reports(reports, id) + {reporter}
    }

    /** The report counts, and with it the threshold is reached. */
    ghost predicate Promotable(reports: map<string, set<string>>, reporter: string, id: string)
      reads this, cluster, cluster.myself
    {
      id in cluster.nodes && id != cluster.myself.id && id != reporter &&
      |Voters(reports, reporter, id)| >= Threshold(cluster.nodes.Keys, cluster.myself.id)
    }

    /** The node carries a failure mark here, but not FAIL; the mark may have come with a peer's report of the node. */
    ghost predicate Suspect(id: string)
      reads this, cluster, cluster.objs
      requires cluster.Shape()
    {
      id in cluster.nodes && HasFail(cluster.nodes[id].flags) && Fail !in cluster.nodes[id].flags
    }

    /** The local mark is required; the takeover clears the reports. */
    method Promote(id: string) returns (promoted: bool)
      requires cluster.Valid() && id in cluster.nodes
      modifies cluster`slots, cluster`usurped, cluster`pfailReports, cluster.objs`flags, cluster.myself`ranges
      ensures cluster.Valid()
      ensures promoted <==> HasFail(old(cluster.nodes[id].flags)) && Fail !in old(cluster.nodes[id].flags)
      ensures promoted ==>
                Fail in cluster.nodes[id].flags && cluster.slots == GiveAll(old(cluster.slots), id, cluster.myself) &&
                cluster.pfailReports == old(cluster.pfailReports) - {id}
      ensures forall n :: n in cluster.objs && n != cluster.nodes[id] ==> n.flags == old(n.flags)
      ensures !promoted ==>
                cluster.slots == old(cluster.slots) && cluster.usurped == old(cluster.usurped) &&
                cluster.pfailReports == old(cluster.pfailReports) && forall n :: n in cluster.objs ==> n.flags == old(n.flags)
    {
      hide InTable, Covers;
      var node := cluster.nodes[id];
      promoted := node.HasFailFlag();
      if promoted { promoted := node.PromotePFailToFail(); }
      if promoted {
        cluster.UsurpFailedNodeSlots(id);
        cluster.pfailReports := cluster.pfailReports - {id};
      }
    }

    // -------------------------------------------------------------- migration marks

    /** A claim for this node ends an import; a claim for another ends a migration. Either clears both marks. */
    method ClearMark(own: bool, slot: nat)
      modifies cluster.myself`importing, cluster.myself`migrating
      ensures cluster.myself.migrating ==
              MigratingLeft(old(cluster.myself.migrating), old(cluster.myself.importing), If(own, {slot}), If(!own, {slot}))
      ensures cluster.myself.importing ==
              ImportingLeft(old(cluster.myself.migrating), old(cluster.myself.importing), If(own, {slot}), If(!own, {slot}))
    {
      var me := cluster.myself;
      if own && slot in me.importing { me.ClearSlotMigration(slot); }
      else if !own && slot in me.migrating { me.ClearSlotMigration(slot); }
    }

    method ClearRange(own: bool, r: SlotRange)
      requires r.end < SLOT_COUNT
      modifies cluster.myself`importing, cluster.myself`migrating
      ensures cluster.myself.migrating ==
              MigratingLeft(old(cluster.myself.migrating), old(cluster.myself.importing), If(own, SlotSet([r])), If(!own, SlotSet([r])))
      ensures cluster.myself.importing ==
              ImportingLeft(old(cluster.myself.migrating), old(cluster.myself.importing), If(own, SlotSet([r])), If(!own, SlotSet([r])))
    {
      hide MigratingLeft, ImportingLeft;
      ghost var mig, imp := cluster.myself.migrating, cluster.myself.importing;
      ghost var done: set<nat> := {};
      NoMarksCleared(mig, imp);
      var slot := r.start;
      while slot <= r.end
        invariant r.start <= slot && (slot <= r.end + 1 || slot == r.start)
        invariant forall j: nat :: j in done <==> r.start <= j < slot
        invariant cluster.myself.migrating == MigratingLeft(mig, imp, If(own, done), If(!own, done))
        invariant cluster.myself.importing == ImportingLeft(mig, imp, If(own, done), If(!own, done))
      {
        ClearMark(own, slot);
        MarksGrow(mig, imp, own, done, {slot});
        done := done + {slot};
        slot := slot + 1;
      }
      assert done == SlotSet([r]) by {
        forall j: nat ensures j in SlotSet([r]) <==> InRange(r, j) { CoversOne(r, j); }
      }
    }

    method ClearEntry(entry: OwnerEntry)
      requires InTable(entry.ranges)
      modifies cluster.myself`importing, cluster.myself`migrating
      ensures cluster.myself.migrating ==
              MigratingLeft(old(cluster.myself.migrating), old(cluster.myself.importing),
                            EntrySlots(entry, cluster.myself.id, true), EntrySlots(entry, cluster.myself.id, false))
      ensures cluster.myself.importing ==
              ImportingLeft(old(cluster.myself.migrating), old(cluster.myself.importing),
                            EntrySlots(entry, cluster.myself.id, true), EntrySlots(entry, cluster.myself.id, false))
    {
      hide MigratingLeft, ImportingLeft, SlotSet;
      ghost var mig, imp := cluster.myself.migrating, cluster.myself.importing;
      var own := entry.nodeId == cluster.myself.id;
      NoMarksCleared(mig, imp);
      ghost var done: set<nat> := {};
      var k := 0;
      assert done == SlotSet(entry.ranges[..0]) by { NoSlots(entry.ranges[..0]); }
      while k < |entry.ranges|
        invariant 0 <= k <= |entry.ranges| && done == SlotSet(entry.ranges[..k])
        invariant cluster.myself.migrating == MigratingLeft(mig, imp, If(own, done), If(!own, done))
        invariant cluster.myself.importing == ImportingLeft(mig, imp, If(own, done), If(!own, done))
      {
        ClearRange(own, entry.ranges[k]);
        MarksGrow(mig, imp, own, done, SlotSet([entry.ranges[k]]));
        SlotSetMore(entry.ranges, k);
        done := done + SlotSet([entry.ranges[k]]);
        k := k + 1;
      }
      assert entry.ranges[..k] == entry.ranges;
    }

    /**
      A mark survives exactly when no entry claims the slot for the other side of it. Only the
      ranges an entry lists matter, whoever owns the slot in this table.
     */
    method ClearMigrations(owners: seq<OwnerEntry>)
      requires forall i :: 0 <= i < |owners| ==> InTable(owners[i].ranges)
      modifies cluster.myself`importing, cluster.myself`migrating
      ensures cluster.myself.migrating ==
              MigratingLeft(old(cluster.myself.migrating), old(cluster.myself.importing),
                            ClaimedSlots(owners, cluster.myself.id, true), ClaimedSlots(owners, cluster.myself.id, false))
      ensures cluster.myself.importing ==
              ImportingLeft(old(cluster.myself.migrating), old(cluster.myself.importing),
                            ClaimedSlots(owners, cluster.myself.id, true), ClaimedSlots(owners, cluster.myself.id, false))
    {
      hide MigratingLeft, ImportingLeft, EntrySlots;
      ghost var mig, imp := cluster.myself.migrating, cluster.myself.importing;
      ghost var me := cluster.myself.id;
      NoMarksCleared(mig, imp);
      var k := 0;
      while k < |owners|
        invariant 0 <= k <= |owners|
        invariant cluster.myself.migrating ==
                  MigratingLeft(mig, imp, ClaimedSlots(owners[..k], me, true), ClaimedSlots(owners[..k], me, false))
        invariant cluster.myself.importing ==
                  ImportingLeft(mig, imp, ClaimedSlots(owners[..k], me, true), ClaimedSlots(owners[..k], me, false))
      {
        ClearEntry(owners[k]);
        MarksCompose(mig, imp, ClaimedSlots(owners[..k], me, true), ClaimedSlots(owners[..k], me, false),
                     EntrySlots(owners[k], me, true), EntrySlots(owners[k], me, false));
        assert owners[..k + 1][..k] == owners[..k];
        k := k + 1;
      }
      assert owners[..k] == owners;
    }

    // -------------------------------------------------------------- whole messages

    /** The node's entry as this view would send it. */
    ghost function EntryFor(id: string): OwnerEntry
      reads this, cluster, cluster.objs
      requires cluster.Shape() && id in cluster.nodes
    {
      OwnerEntry(id, cluster.nodes[id].epoch, cluster.nodes[id].ranges)
    }

    ghost predicate Truthful(e: OwnerEntry)
      reads this, cluster, cluster.objs
      requires cluster.Shape()
    {
      e.nodeId in cluster.nodes && e == EntryFor(e.nodeId)
    }

    /** The node as this view would describe it. */
    ghost function InfoFor(id: string): NodeInfo
      reads this, cluster, cluster.objs
      requires cluster.Shape() && id in cluster.nodes
    {
      var n := cluster.nodes[id];
      NodeInfo(id, n.addr, n.flags, n.epoch, n.pongRecv)
    }

    ghost predicate Described(info: NodeInfo)
      reads this, cluster, cluster.objs
      requires cluster.Shape()
    {
      info.id in cluster.nodes && info == InfoFor(info.id)
    }

    /** A payload built from a view carries the view's epoch, and no entry above it. `order` lists the table. */
    method BuildGossipPayload(order: seq<string>) returns (p: Payload)
      requires cluster.Valid() && forall i :: 0 <= i < |order| ==> order[i] in cluster.nodes
      ensures p.epoch == cluster.epoch && Bounded(p) && |p.nodes| <= GOSSIP_SECTION
      ensures forall i :: 0 <= i < |p.owners| ==> Truthful(p.owners[i]) && p.owners[i].ranges != []
      ensures forall i :: 0 <= i < |p.nodes| ==> p.nodes[i].id != cluster.myself.id && p.nodes[i].id in order && Described(p.nodes[i])
      ensures |p.nodes| == GOSSIP_SECTION ||
              forall i :: 0 <= i < |order| && order[i] != cluster.myself.id ==> InfoFor(order[i]) in p.nodes
      ensures forall i :: 0 <= i < |order| && cluster.nodes[order[i]].ranges != [] ==> EntryFor(order[i]) in p.owners
      ensures forall id :: id in p.pfail <==> id in order && id != cluster.myself.id && HasFail(cluster.nodes[id].flags)
    {
      var owners := BuildOwners(order);
      var pfail, infos := BuildOthers(order);
      p := Payload(cluster.epoch, owners, infos, pfail);
    }

    /** An entry for every node that has ranges. */
    method BuildOwners(order: seq<string>) returns (owners: seq<OwnerEntry>)
      requires cluster.Valid() && forall i :: 0 <= i < |order| ==> order[i] in cluster.nodes
      ensures forall i :: 0 <= i < |owners| ==> Truthful(owners[i]) && owners[i].ranges != []
      ensures forall i :: 0 <= i < |order| && cluster.nodes[order[i]].ranges != [] ==> EntryFor(order[i]) in owners
    {
      hide InTable, Covers;
      owners := [];
      for i := 0 to |order|
        invariant forall k :: 0 <= k < |owners| ==> Truthful(owners[k]) && owners[k].ranges != []
        invariant forall k :: 0 <= k < i && cluster.nodes[order[k]].ranges != [] ==> EntryFor(order[k]) in owners
      {
        var n := cluster.nodes[order[i]];
        if |n.ranges| > 0 { owners := owners + [OwnerEntry(n.id, n.epoch, n.ranges)]; }
      }
    }

    /** The failed nodes, and a description of some of the others. */
    method BuildOthers(order: seq<string>) returns (pfail: seq<string>, infos: seq<NodeInfo>)
      requires cluster.Valid() && forall i :: 0 <= i < |order| ==> order[i] in cluster.nodes
      ensures forall id :: id in pfail <==> id in order && id != cluster.myself.id && HasFail(cluster.nodes[id].flags)
      ensures |infos| <= GOSSIP_SECTION
      ensures forall i :: 0 <= i < |infos| ==> infos[i].id != cluster.myself.id && infos[i].id in order && Described(infos[i])
      ensures |infos| == GOSSIP_SECTION ||
              forall i :: 0 <= i < |order| && order[i] != cluster.myself.id ==> InfoFor(order[i]) in infos
    {
      hide InTable, Covers;
      pfail, infos := [], [];
      var i := 0;
      while i < |order|
        invariant 0 <= i <= |order| && |infos| <= GOSSIP_SECTION
        invariant forall id :: id in pfail <==> id in order[..i] && id != cluster.myself.id && HasFail(cluster.nodes[id].flags)
        invariant forall k :: 0 <= k < |infos| ==> infos[k].id != cluster.myself.id && infos[k].id in order && Described(infos[k])
        invariant |infos| == GOSSIP_SECTION || forall k :: 0 <= k < i && order[k] != cluster.myself.id ==> InfoFor(order[k]) in infos
      {
        var n := cluster.nodes[order[i]];
        assert order[..i + 1] == order[..i] + [order[i]];
        if order[i] != cluster.myself.id {
          var failed := n.HasFailFlag();
          if failed { pfail := pfail + [n.id]; }
          if |infos| < GOSSIP_SECTION { infos := infos + [NodeInfo(n.id, n.addr, n.flags, n.epoch, n.pongRecv)]; }
        }
        i := i + 1;
      }
      assert order[..i] == order;
    }

    method LearnNodes(infos: seq<NodeInfo>, now: int) returns (dirty: bool)
      requires cluster.Valid() && forall i :: 0 <= i < |infos| ==> infos[i].epoch <= cluster.epoch
      modifies cluster`nodes, cluster`objs, cluster`slots, cluster`epoch, cluster`pfailReports, cluster`usurped
      modifies cluster.objs`flags, cluster.objs`epoch, cluster.objs`ranges, cluster.objs`pongRecv
      ensures cluster.Valid() && cluster.epoch >= old(cluster.epoch)
      ensures cluster.slots != old(cluster.slots) ==> dirty
      ensures old(cluster.objs) <= cluster.objs && fresh(cluster.objs - old(cluster.objs))
      ensures Learned(old(ViewOf(cluster)), infos, now, cluster.myself.id, ViewOf(cluster))
    {
      hide GiveBack, InTable, Covers, Learned, ViewOf, IsFresh, WellFormed;
      dirty := false;
      ghost var v := ViewOf(cluster);
      LearnedNothing(v, now, cluster.myself.id);
      var i := 0;
      assert infos[..0] == [];
      while i < |infos|
        invariant 0 <= i <= |infos| && cluster.Valid() && cluster.epoch >= old(cluster.epoch)
        invariant old(cluster.objs) <= cluster.objs && fresh(cluster.objs - old(cluster.objs))
        invariant Learned(v, infos[..i], now, cluster.myself.id, ViewOf(cluster))
        invariant cluster.slots != old(cluster.slots) ==> dirty
      {
        ghost var u := ViewOf(cluster);
        var d := LearnNode(infos[i], now);
        dirty := dirty || d;
        LearnedBoth(v, infos[..i], u, [infos[i]], ViewOf(cluster), now, cluster.myself.id);
        assert infos[..i] + [infos[i]] == infos[..i + 1];
        i := i + 1;
      }
      assert infos[..i] == infos;
    }

    /** ReportFailure, as it shows in the view. */
    method TakeReport(reporter: string, id: string) returns (dirty: bool)
      requires cluster.Valid()
      modifies cluster`slots, cluster`usurped, cluster`pfailReports, cluster.objs`flags, cluster.myself`ranges
      ensures cluster.Valid()
      ensures cluster.slots != old(cluster.slots) ==> dirty
      ensures Reported(old(ViewOf(cluster)), reporter, {id}, cluster.myself, ViewOf(cluster))
    {
      hide InTable, Covers, HasFail, Threshold, ViewOf, FlagsOf, EpochsOf, PongsOf, AddrsOf, GiveAll, Reported, Majority, Reports;
      ghost var v := ViewOf(cluster);
      ViewParts(cluster);
      FlagsAt(cluster.nodes);
      EpochsAt(cluster.nodes);
      PongsAt(cluster.nodes);
      dirty := ReportFailure(reporter, id);
      EpochsAre(cluster.nodes, v.epochs);
      PongsAre(cluster.nodes, v.pongs);
      ViewParts(cluster);
      FlagsAt(cluster.nodes);
      ReportedOnce(v, reporter, id, cluster.myself, dirty, ViewOf(cluster));
    }

    /** Every failure a peer lists is taken up, one after the other. */
    method ReportFailures(reporter: string, pfail: seq<string>) returns (dirty: bool)
      requires cluster.Valid()
      modifies cluster`slots, cluster`usurped, cluster`pfailReports, cluster.objs`flags, cluster.myself`ranges
      ensures cluster.Valid()
      ensures cluster.slots != old(cluster.slots) ==> dirty
      ensures Reported(old(ViewOf(cluster)), reporter, Listed(reporter, pfail), cluster.myself, ViewOf(cluster))
    {
      hide InTable, Covers, ViewOf, Reported, WellFormed;
      dirty := false;
      ghost var v := ViewOf(cluster);
      ghost var seen: set<string> := {};
      ReportedNothing(v, reporter, cluster.myself);
      if reporter == "" { return; }
      var i := 0;
      while i < |pfail|
        invariant 0 <= i <= |pfail| && cluster.Valid()
        invariant seen == (set id | id in pfail[..i])
        invariant Reported(v, reporter, seen, cluster.myself, ViewOf(cluster))
        invariant cluster.slots != old(cluster.slots) ==> dirty
      {
        ghost var u := ViewOf(cluster);
        var d := TakeReport(reporter, pfail[i]);
        dirty := dirty || d;
        ReportedOneMore(v, reporter, seen, cluster.myself, u, pfail[i], ViewOf(cluster));
        seen := seen + {pfail[i]};
        assert pfail[..i + 1] == pfail[..i] + [pfail[i]];
        i := i + 1;
      }
      assert pfail[..i] == pfail;
    }

    /** The claims of a payload settle the owners and end the migrations they overtake. */
    method Reconcile(owners: seq<OwnerEntry>) returns (dirty: bool)
      requires cluster.Valid() && forall i :: 0 <= i < |owners| ==> InTable(owners[i].ranges)
      modifies cluster`slots, cluster.objs`ranges, cluster.myself`importing, cluster.myself`migrating
      ensures cluster.Valid()
      ensures cluster.slots != old(cluster.slots) ==> dirty
      ensures forall j: nat :: j < SLOT_COUNT ==>
                OwnerOf(cluster.slots[j]) == Settle(OwnerOf(old(cluster.slots)[j]), ClaimsOn(owners, j, Known()))
      ensures cluster.myself.migrating ==
              MigratingLeft(old(cluster.myself.migrating), old(cluster.myself.importing),
                            ClaimedSlots(owners, cluster.myself.id, true), ClaimedSlots(owners, cluster.myself.id, false))
      ensures cluster.myself.importing ==
              ImportingLeft(old(cluster.myself.migrating), old(cluster.myself.importing),
                            ClaimedSlots(owners, cluster.myself.id, true), ClaimedSlots(owners, cluster.myself.id, false))
    {
      hide InTable, Covers, MigratingLeft, ImportingLeft, ClaimedSlots, Settle, ClaimsOn;
      dirty := Arbitrate(owners);
      ghost var known := Known();
      ClearMigrations(owners);
      assert Known() == known;
    }

    /** The first part of a message: its epoch and its nodes. */
    method LearnFrom(p: Payload, now: int) returns (dirty: bool)
      requires cluster.Valid() && Bounded(p)
      modifies cluster`nodes, cluster`objs, cluster`slots, cluster`epoch, cluster`pfailReports, cluster`usurped
      modifies cluster.objs`flags, cluster.objs`epoch, cluster.objs`ranges, cluster.objs`pongRecv
      ensures cluster.Valid() && cluster.epoch >= old(cluster.epoch) && cluster.epoch >= p.epoch
      ensures cluster.slots != old(cluster.slots) ==> dirty
      ensures old(cluster.objs) <= cluster.objs && fresh(cluster.objs - old(cluster.objs))
      ensures Learned(old(ViewOf(cluster)), p.nodes, now, cluster.myself.id, ViewOf(cluster))
    {
      hide InTable, Covers, ViewOf, Learned, WellFormed;
      RaiseEpoch(p.epoch);
      dirty := LearnNodes(p.nodes, now);
    }

    /** Reconcile, as it shows in the view. */
    method SettleClaims(owners: seq<OwnerEntry>) returns (dirty: bool)
      requires cluster.Valid() && forall i :: 0 <= i < |owners| ==> InTable(owners[i].ranges)
      modifies cluster`slots, cluster.objs`ranges, cluster.myself`importing, cluster.myself`migrating
      ensures cluster.Valid() && ViewOf(cluster) == old(ViewOf(cluster)).(slots := cluster.slots)
      ensures cluster.slots != old(cluster.slots) ==> dirty
      ensures forall j: nat :: j < SLOT_COUNT ==> SlotOutcome(old(cluster.slots)[j], owners, j)
      ensures MarksOutlive(old(cluster.myself.migrating), old(cluster.myself.importing), owners, cluster.myself.id,
                           cluster.myself.migrating, cluster.myself.importing)
    {
      hide InTable, Covers, MigratingLeft, ImportingLeft, ClaimedSlots, Settle, ClaimsOn, ViewOf, FlagsOf, EpochsOf, PongsOf, AddrsOf,
           MarksOutlive;
      ghost var v := ViewOf(cluster);
      ViewParts(cluster);
      FlagsAt(cluster.nodes);
      EpochsAt(cluster.nodes);
      PongsAt(cluster.nodes);
      MarksExact(cluster.myself.migrating, cluster.myself.importing, owners, cluster.myself.id);
      dirty := Reconcile(owners);
      FlagsAre(cluster.nodes, v.flags);
      EpochsAre(cluster.nodes, v.epochs);
      PongsAre(cluster.nodes, v.pongs);
      ViewParts(cluster);
    }

    /**
      A slot after a message: it goes to the outcome of the claims on it, by the records the message leaves, or
      becomes this node's own because that owner is reported in the same message and is FAIL now.
     */
    ghost predicate SlotSettled(was: Node?, p: Payload, reporter: string, j: nat)
      reads this, cluster, cluster.objs, was
      requires cluster.Shape() && j < SLOT_COUNT
    {
      var owner := Settle(OwnerOf(was), ClaimsOn(p.owners, j, Known()));
      OwnerOf(cluster.slots[j]) == owner ||
      (owner.Some? && TakenOver(owner.value.who.id, p, reporter) && cluster.slots[j] == cluster.myself)
    }

    ghost predicate TakenOver(id: string, p: Payload, reporter: string)
      reads this, cluster, cluster.objs
      requires cluster.Shape()
    {
      id in Listed(reporter, p.pfail) && id in cluster.nodes && Fail in cluster.nodes[id].flags
    }

    /** The slots have been settled over `was`; the reports may take some of them over. */
    method ReportOnTop(reporter: string, p: Payload, ghost was: seq<Node?>) returns (dirty: bool)
      requires cluster.Valid() && |was| == SLOT_COUNT && forall j :: 0 <= j < SLOT_COUNT && was[j] != null ==> was[j] in cluster.objs
      requires forall j: nat :: j < SLOT_COUNT ==> SlotOutcome(was[j], p.owners, j)
      modifies cluster`slots, cluster`usurped, cluster`pfailReports, cluster.objs`flags, cluster.myself`ranges
      ensures cluster.Valid()
      ensures cluster.slots != old(cluster.slots) ==> dirty
      ensures Reported(old(ViewOf(cluster)), reporter, Listed(reporter, p.pfail), cluster.myself, ViewOf(cluster))
      ensures forall j: nat :: j < SLOT_COUNT ==> SlotSettled(was[j], p, reporter, j)
    {
      hide InTable, Covers, Settle, ClaimsOn, ViewOf, Reported, Listed, WellFormed, Known;
      ghost var v, known, slots := ViewOf(cluster), Known(), cluster.slots;
      TableIn(cluster);
      KnownParts();
      dirty := ReportFailures(reporter, p.pfail);
      KnownIs(known);
      TableIn(cluster);
      forall j: nat | j < SLOT_COUNT ensures SlotSettled(was[j], p, reporter, j) {
        SlotKeptOrTaken(v, reporter, Listed(reporter, p.pfail), cluster.myself, ViewOf(cluster), j);
        if cluster.slots[j] != slots[j] { FlagsIn(cluster, slots[j].id); }
      }
    }

    ghost predicate SlotOutcome(was: Node?, owners: seq<OwnerEntry>, j: nat)
      reads this, cluster, cluster.objs, was
      requires cluster.Shape() && j < SLOT_COUNT
    {
      OwnerOf(cluster.slots[j]) == Settle(OwnerOf(was), ClaimsOn(owners, j, Known()))
    }

    lemma KnownParts()
      requires cluster.Shape()
      ensures Known().Keys == cluster.nodes.Keys + {cluster.myself.id}
      ensures forall id :: id in cluster.nodes && id != cluster.myself.id ==>
                Known()[id] == Party(cluster.nodes[id], cluster.nodes[id].epoch)
      ensures Known()[cluster.myself.id] == Party(cluster.myself, cluster.myself.epoch)
    {}

    lemma KnownIs(known: map<string, Party<Node>>)
      requires cluster.Shape() && known.Keys == cluster.nodes.Keys + {cluster.myself.id}
      requires forall id :: id in cluster.nodes && id != cluster.myself.id ==>
                 known[id] == Party(cluster.nodes[id], cluster.nodes[id].epoch)
      requires known[cluster.myself.id] == Party(cluster.myself, cluster.myself.epoch)
      ensures Known() == known
    {
      KnownParts();
    }

    /**
      ApplyGossipPayloadFrom. A bounded payload keeps the whole view valid and its epoch moves forward. The nodes
      it lists are learned and those it reports recorded or promoted; the slots withheld from a node heard of are
      `returned`, and then every slot is settled by its claims; the migration marks its claims overtake go.
     */
    method ApplyGossipPayloadFrom(reporter: string, p: Payload, now: int) returns (dirty: bool, ghost returned: seq<Node?>)
      requires cluster.Valid() && Bounded(p)
      modifies cluster, cluster.objs
      ensures cluster.Valid() && cluster.epoch >= old(cluster.epoch) && cluster.epoch >= p.epoch
      ensures cluster.slots != old(cluster.slots) ==> dirty
      ensures cluster.myself == old(cluster.myself)
      ensures old(cluster.objs) <= cluster.objs && fresh(cluster.objs - old(cluster.objs))
      ensures Merged(old(ViewOf(cluster)), reporter, p.nodes, p.pfail, now, cluster.myself.id, ViewOf(cluster))
      ensures SlotsReturned(old(ViewOf(cluster)), p.nodes, now, cluster.myself.id, ViewOf(cluster).(slots := returned))
      ensures |returned| == SLOT_COUNT && forall j: nat :: j < SLOT_COUNT ==> SlotSettled(returned[j], p, reporter, j)
      ensures NothingDue(old(ViewOf(cluster)), p.nodes, now, cluster.myself.id) ==>
                forall j: nat :: j < SLOT_COUNT ==> SlotSettled(old(cluster.slots)[j], p, reporter, j)
      ensures MarksOutlive(old(cluster.myself.migrating), old(cluster.myself.importing), p.owners, cluster.myself.id,
                           cluster.myself.migrating, cluster.myself.importing)
    {
      hide InTable, Covers, SlotOutcome, SlotSettled, ViewOf, Learned, Reported, Merged, MarksOutlive, NothingDue, Listed, WellFormed,
           TableLearned, StateLearned, NumbersTold, SlotsReturned;
      ghost var v := ViewOf(cluster);
      TableIn(cluster);
      dirty := LearnFrom(p, now);
      returned := cluster.slots;
      ghost var u := ViewOf(cluster);
      TableIn(cluster);
      LearnedSlots(v, p.nodes, now, cluster.myself.id, u);
      var d := SettleClaims(p.owners);
      dirty := dirty || d;
      LearnedWithSlots(v, p.nodes, now, cluster.myself.id, u, cluster.slots);
      ghost var mid := ViewOf(cluster);
      d := ReportOnTop(reporter, p, returned);
      dirty := dirty || d;
      SameNodes(mid, reporter, Listed(reporter, p.pfail), cluster.myself, ViewOf(cluster));
      SameReturns(v, p.nodes, now, cluster.myself.id, u, ViewOf(cluster).(slots := returned));
      MergedBy(v, reporter, p.nodes, p.pfail, now, cluster.myself, mid, ViewOf(cluster));
    }

    method RaiseEpoch(e: int)
      requires cluster.Valid()
      modifies cluster`epoch
      ensures cluster.Valid() && cluster.epoch == if e > old(cluster.epoch) then e else old(cluster.epoch)
      ensures ViewOf(cluster) == old(ViewOf(cluster))
    {
      hide InTable, Covers;
      if e > cluster.epoch { cluster.epoch := e; }
    }

    /**
      checkFailures: the nodes that have been silent too long are marked, and those gone for good
      are removed with their slots. `late` and `stale` are the clock's verdicts.
     */
    method CheckFailures(order: seq<string>, late: set<string>, stale: set<string>)
      requires cluster.Valid()
      modifies cluster`nodes, cluster`slots, cluster.objs`flags, cluster.myself`ranges
      ensures cluster.Valid()
      ensures cluster.nodes.Keys == old(cluster.nodes).Keys - (stale * (set id | id in order) - {cluster.myself.id})
      ensures forall id :: id in old(cluster.nodes) ==>
                old(cluster.nodes[id]).flags == if id in late && id in order && id != cluster.myself.id
                                                then Suspected(old(cluster.nodes[id].flags)) else old(cluster.nodes[id].flags)
      ensures Dropped(old(cluster.slots), old(cluster.nodes).Keys * stale * (set id | id in order) - {cluster.myself.id})
    {
      hide InTable, Covers, Dropped, Suspected;
      MarkSilent(order, late);
      RemoveStale(order, stale);
    }

    method MarkSilent(order: seq<string>, late: set<string>)
      requires cluster.Valid()
      modifies cluster.objs`flags
      ensures cluster.Valid()
      ensures forall id :: id in cluster.nodes ==>
                cluster.nodes[id].flags == if id in late && id in order && id != cluster.myself.id
                                           then Suspected(old(cluster.nodes[id].flags)) else old(cluster.nodes[id].flags)
    {
      hide InTable, Covers, HasFail, Suspected;
      var i := 0;
      while i < |order|
        invariant 0 <= i <= |order| && cluster.Valid()
        invariant forall id :: id in cluster.nodes ==>
                    cluster.nodes[id].flags == if id in late && id in order[..i] && id != cluster.myself.id
                                               then Suspected(old(cluster.nodes[id].flags)) else old(cluster.nodes[id].flags)
      {
        assert order[..i + 1] == order[..i] + [order[i]];
        if order[i] in cluster.nodes && order[i] != cluster.myself.id && order[i] in late {
          SuspectedOnce(old(cluster.nodes[order[i]].flags));
          MarkOne(order[i]);
        }
        i := i + 1;
      }
      assert order[..i] == order;
    }

    method MarkOne(id: string)
      requires cluster.Valid() && id in cluster.nodes
      modifies cluster.objs`flags
      ensures cluster.Valid()
      ensures forall x :: x in cluster.nodes ==>
                cluster.nodes[x].flags == if x == id then Suspected(old(cluster.nodes[x].flags)) else old(cluster.nodes[x].flags)
    {
      hide InTable, Covers, HasFail;
      cluster.nodes[id].MarkPFail();
    }

    static lemma SuspectedOnce(flags: seq<Flag>)
      ensures HasFail(Suspected(flags)) && Suspected(Suspected(flags)) == Suspected(flags)
    {
      if !HasFail(flags) { assert FailFlag((flags + [PFail])[|flags|]); }
    }

    /** A silent node is suspected, unless it is already. */
    static function Suspected(flags: seq<Flag>): seq<Flag> { if HasFail(flags) then flags else flags + [PFail] }

    /** The slots of the removed nodes are this node's own, the others as they were. */
    ghost predicate Dropped(was: seq<Node?>, gone: set<string>)
      reads this, cluster
    {
      |cluster.slots| == |was| && forall j :: 0 <= j < |was| ==>
        cluster.slots[j] == if was[j] != null && was[j].id in gone then cluster.myself else was[j]
    }

    method RemoveStale(order: seq<string>, stale: set<string>)
      requires cluster.Valid()
      modifies cluster`nodes, cluster`slots, cluster.myself`ranges
      ensures cluster.Valid()
      ensures cluster.nodes.Keys == old(cluster.nodes).Keys - (stale * (set id | id in order) - {cluster.myself.id})
      ensures Dropped(old(cluster.slots), old(cluster.nodes).Keys * stale * (set id | id in order) - {cluster.myself.id})
    {
      hide InTable, Covers, GiveAll;
      ghost var gone: set<string> := {};
      ghost var was, table := cluster.slots, cluster.nodes.Keys;
      var i := 0;
      while i < |order|
        invariant 0 <= i <= |order| && cluster.Valid()
        invariant cluster.nodes.Keys == table - gone && Dropped(was, gone)
        invariant forall id :: id in gone <==> id in table && id in stale && id in order[..i] && id != cluster.myself.id
      {
        assert order[..i + 1] == order[..i] + [order[i]];
        if order[i] != cluster.myself.id && order[i] in stale && order[i] in cluster.nodes {
          ghost var slots := cluster.slots;
          cluster.RemoveNode(order[i]);
          GiveAllAt(slots, order[i], cluster.myself);
          gone := gone + {order[i]};
        }
        i := i + 1;
      }
      assert order[..i] == order;
      assert gone == table * stale * (set id | id in order) - {cluster.myself.id};
    }
  }
}
