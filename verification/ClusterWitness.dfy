/** Failures agreed on by fewer nodes than a majority. */
module ClusterWitness {
  import opened SlotRanges
  import opened ClusterNode
  import opened ClusterTable
  import opened ClusterMerge
  import opened ClusterGossip

  /** A member that knows the given nodes, none of which has reported anything. */
  method Member(ids: seq<string>) returns (c: Cluster)
    requires "me" !in ids
    ensures c.Valid() && fresh(c) && fresh(c.objs) && c.myself.id == "me" && c.pfailReports == map[]
    ensures c.nodes.Keys == {"me"} + (set id | id in ids)
    ensures forall id :: id in ids ==> c.nodes[id].flags == []
  {
    hide InTable, Covers;
    c := new Cluster("me", "0");
    var i := 0;
    while i < |ids|
      invariant 0 <= i <= |ids| && c.Valid() && fresh(c.objs) && c.myself.id == "me" && c.pfailReports == map[]
      invariant c.nodes.Keys == {"me"} + (set id | id in ids[..i])
      invariant forall id :: id in ids[..i] ==> c.nodes[id].flags == []
    {
      assert ids[..i + 1] == ids[..i] + [ids[i]];
      c.AddNode(ids[i], ids[i]);
      i := i + 1;
    }
    assert ids[..i] == ids;
  }

  /** The member's own failure check marks a node. */
  method Mark(c: Cluster, id: string)
    requires c.Valid() && id in c.nodes && c.nodes[id].flags == []
    modifies c.objs`flags
    ensures c.Valid() && HasFail(c.nodes[id].flags) && Fail !in c.nodes[id].flags
  {
    hide InTable, Covers;
    c.nodes[id].MarkPFail();
  }

  method Suspecting(ids: seq<string>) returns (c: Cluster)
    requires "me" !in ids && "x" in ids
    ensures c.Valid() && fresh(c) && fresh(c.objs) && c.myself.id == "me" && c.pfailReports == map[]
    ensures c.nodes.Keys == {"me"} + (set id | id in ids)
    ensures HasFail(c.nodes["x"].flags) && Fail !in c.nodes["x"].flags
  {
    hide InTable, Covers, HasFail;
    c := Member(ids);
    Mark(c, "x");
  }

  /** Three nodes. A member whose own report comes back to it promotes another all alone. */
  method SelfReportPromotes() returns (c: Cluster)
    ensures c.Valid() && fresh(c) && c.myself.id == "me" && c.nodes.Keys == {"me", "x", "a"}
    ensures Fail in c.nodes["x"].flags && !Majority({"me"}, c.nodes.Keys, "me")
  {
    hide InTable, Covers, HasFail, Majority, Threshold, GiveAll;
    var ids := ["x", "a"];
    c := Suspecting(ids);
    assert c.nodes.Keys == {"me", "x", "a"};
    var bus := new ClusterBus(c);
    ThreeNodes();
    var promoted := bus.ReportFailure("me", "x");
  }

  lemma ThreeNodes()
    ensures Threshold({"me", "x", "a"}, "me") == 1 && !Majority({"me"}, {"me", "x", "a"}, "me")
  {
    assert {"me", "x", "a"} - {"me"} == {"x", "a"};
    assert {"me"} * {"me", "x", "a"} + {"me"} == {"me"};
  }

  const SEVEN: set<string> := {"me", "x", "a", "b", "c", "d", "e"}
  const SIX: set<string> := {"me", "x", "b", "c", "d", "e"}

  lemma SevenNodes()
    ensures Threshold(SEVEN, "me") == 3 && Threshold(SIX, "me") == 3
    ensures !Majority({"a", "b", "c"}, SIX, "me")
  {
    assert SEVEN - {"me"} == {"x", "a", "b", "c", "d", "e"};
    assert SIX - {"me"} == {"x", "b", "c", "d", "e"};
    assert {"a", "b", "c"} * SIX + {"me"} == {"me", "b", "c"};
  }

  method OneReport() returns (c: Cluster)
    ensures c.Valid() && fresh(c) && fresh(c.objs) && c.myself.id == "me" && c.nodes.Keys == SEVEN
    ensures "x" in c.pfailReports && c.pfailReports["x"] == {"a"}
    ensures HasFail(c.nodes["x"].flags) && Fail !in c.nodes["x"].flags
  {
    hide InTable, Covers, HasFail, Majority, Threshold, GiveAll;
    var ids := ["x", "a", "b", "c", "d", "e"];
    c := Suspecting(ids);
    assert c.nodes.Keys == SEVEN;
    var bus := new ClusterBus(c);
    SevenNodes();
    assert Reports(c.pfailReports, "x") + {"a"} == {"a"};
    var promoted := bus.ReportFailure("a", "x");
  }

  /** Seven nodes, two of which report another: that is not enough. */
  method TwoReports() returns (c: Cluster)
    ensures c.Valid() && fresh(c) && fresh(c.objs) && c.myself.id == "me" && c.nodes.Keys == SEVEN
    ensures "x" in c.pfailReports && c.pfailReports["x"] == {"a", "b"}
    ensures HasFail(c.nodes["x"].flags) && Fail !in c.nodes["x"].flags
  {
    hide InTable, Covers, HasFail, Majority, Threshold, GiveAll;
    c := OneReport();
    var bus := new ClusterBus(c);
    SevenNodes();
    assert Reports(c.pfailReports, "x") + {"b"} == {"a", "b"};
    var promoted := bus.ReportFailure("b", "x");
  }

  /** A reporter that is then forgotten still counts: three of six nodes promote another. */
  method ForgottenReporterCounts() returns (c: Cluster)
    ensures c.Valid() && fresh(c) && c.myself.id == "me" && c.nodes.Keys == SIX
    ensures Fail in c.nodes["x"].flags && !Majority({"a", "b", "c"}, c.nodes.Keys, "me")
  {
    hide InTable, Covers, HasFail, Majority, Threshold, GiveAll;
    c := TwoReports();
    var forgotten := c.Forget("a");
    assert c.nodes.Keys == SIX;
    var bus := new ClusterBus(c);
    SevenNodes();
    assert Reports(c.pfailReports, "x") + {"c"} == {"a", "b", "c"};
    var promoted := bus.ReportFailure("c", "x");
  }
}
