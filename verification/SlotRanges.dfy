/** Inclusive slot ranges and the bookkeeping over lists of them. */
module SlotRanges {

  const SLOT_COUNT: nat := 16384

  datatype SlotRange = SlotRange(start: nat, end: nat)

  predicate InRange(r: SlotRange, slot: nat) { r.start <= slot <= r.end }

  predicate Covers(rs: seq<SlotRange>, slot: nat) {
    exists k :: 0 <= k < |rs| && InRange(rs[k], slot)
  }

  /** Every range lies inside the slot table. */
  predicate InTable(rs: seq<SlotRange>) { forall k :: 0 <= k < |rs| ==> rs[k].end < SLOT_COUNT }

  lemma CoversConcat(a: seq<SlotRange>, b: seq<SlotRange>, slot: nat)
    ensures Covers(a + b, slot) <==> Covers(a, slot) || Covers(b, slot)
  {
    if Covers(a, slot) {
      var k :| 0 <= k < |a| && InRange(a[k], slot);
      assert InRange((a + b)[k], slot);
    }
    if Covers(b, slot) {
      var k :| 0 <= k < |b| && InRange(b[k], slot);
      assert InRange((a + b)[|a| + k], slot);
    }
  }

  lemma CoversOne(r: SlotRange, slot: nat)
    ensures Covers([r], slot) <==> InRange(r, slot)
  {
    assert [r][0] == r;
  }

  /** AddSlotRange: grown into the last range when it touches it, appended otherwise. */
  function AddRange(rs: seq<SlotRange>, start: nat, end: nat): seq<SlotRange> {
    if |rs| > 0 && rs[|rs| - 1].start <= start <= rs[|rs| - 1].end + 1 then
      if end > rs[|rs| - 1].end then rs[..|rs| - 1] + [SlotRange(rs[|rs| - 1].start, end)] else rs
    else rs + [SlotRange(start, end)]
  }

  /** Exactly the given slots are added, whatever overlaps. */
  lemma AddRangeExact(rs: seq<SlotRange>, start: nat, end: nat, slot: nat)
    ensures Covers(AddRange(rs, start, end), slot) <==> Covers(rs, slot) || start <= slot <= end
  {
    if |rs| > 0 && rs[|rs| - 1].start <= start <= rs[|rs| - 1].end + 1 {
      var front, last := rs[..|rs| - 1], rs[|rs| - 1];
      assert rs == front + [last];
      CoversConcat(front, [last], slot);
      CoversOne(last, slot);
      if end > last.end {
        CoversConcat(front, [SlotRange(last.start, end)], slot);
        CoversOne(SlotRange(last.start, end), slot);
      }
    } else {
      CoversConcat(rs, [SlotRange(start, end)], slot);
      CoversOne(SlotRange(start, end), slot);
    }
  }

  lemma AddRangeInTable(rs: seq<SlotRange>, start: nat, end: nat)
    requires InTable(rs) && end < SLOT_COUNT
    ensures InTable(AddRange(rs, start, end))
  {}

  /** What is left of one range when a slot is taken out of it. */
  function Without(r: SlotRange, slot: nat): seq<SlotRange> {
    if slot < r.start || slot > r.end then [r]
    else if slot == r.start && slot == r.end then []
    else if slot == r.start then [SlotRange(slot + 1, r.end)]
    else if slot == r.end then [SlotRange(r.start, slot - 1)]
    else [SlotRange(r.start, slot - 1), SlotRange(slot + 1, r.end)]
  }

  lemma WithoutExact(r: SlotRange, taken: nat, slot: nat)
    ensures Covers(Without(r, taken), slot) <==> InRange(r, slot) && slot != taken
  {
    var w := Without(r, taken);
    if InRange(r, slot) && slot != taken {
      assert InRange(w[0], slot) || (|w| == 2 && InRange(w[1], slot));
    }
  }

  /** The loop of RemoveSlot over the node's own ranges: exactly one slot goes, from every range that holds it. */
  method RemoveFromRanges(rs: seq<SlotRange>, slot: nat) returns (updated: seq<SlotRange>)
    requires InTable(rs)
    ensures InTable(updated)
    ensures forall j: nat :: Covers(updated, j) <==> Covers(rs, j) && j != slot
  {
    updated := [];
    var i := 0;
    assert rs[..0] == [];
    while i < |rs|
      invariant 0 <= i <= |rs| && InTable(updated)
      invariant forall j: nat :: Covers(updated, j) <==> Covers(rs[..i], j) && j != slot
    {
      forall j: nat
        ensures Covers(updated + Without(rs[i], slot), j) <==> Covers(rs[..i + 1], j) && j != slot
      {
        CoversConcat(updated, Without(rs[i], slot), j);
        WithoutExact(rs[i], slot, j);
        assert rs[..i + 1] == rs[..i] + [rs[i]];
        CoversConcat(rs[..i], [rs[i]], j);
        CoversOne(rs[i], j);
      }
      updated := updated + Without(rs[i], slot);
      i := i + 1;
    }
    assert rs[..i] == rs;
  }

  // ------------------------------------------------------------ merging slots

  predicate Sorted(s: seq<nat>) { forall i, j :: 0 <= i < j < |s| ==> s[i] <= s[j] }

  predicate Distinct(s: seq<nat>) { forall i, j :: 0 <= i < j < |s| ==> s[i] != s[j] }

  /** Sorted, disjoint and with a gap between neighbours. */
  predicate Separated(rs: seq<SlotRange>) {
    (forall k :: 0 <= k < |rs| ==> rs[k].start <= rs[k].end) &&
    (forall k, l :: 0 <= k < l < |rs| ==> rs[k].end + 1 < rs[l].start)
  }

  /** The sort the merge begins with. */
  method SortSlots(slots: seq<nat>) returns (sorted: seq<nat>)
    ensures Sorted(sorted) && multiset(sorted) == multiset(slots)
  {
    sorted := [];
    var i := 0;
    while i < |slots|
      invariant 0 <= i <= |slots| && Sorted(sorted) && multiset(sorted) == multiset(slots[..i])
    {
      var k := 0;
      while k < |sorted| && sorted[k] < slots[i]
        invariant 0 <= k <= |sorted|
        invariant forall j :: 0 <= j < k ==> sorted[j] < slots[i]
      {
        k := k + 1;
      }
      InsertKeeps(sorted, k, slots[i]);
      assert slots[..i + 1] == slots[..i] + [slots[i]];
      sorted := sorted[..k] + [slots[i]] + sorted[k..];
      i := i + 1;
    }
    assert slots[..i] == slots;
  }

  lemma InsertKeeps(s: seq<nat>, k: nat, x: nat)
    requires Sorted(s) && k <= |s| && (forall j :: 0 <= j < k ==> s[j] < x) && (k < |s| ==> x <= s[k])
    ensures Sorted(s[..k] + [x] + s[k..])
    ensures multiset(s[..k] + [x] + s[k..]) == multiset(s) + multiset{x}
  {
    assert s == s[..k] + s[k..];
    SortedConcat(s[..k] + [x], s[k..]);
  }

  lemma SortedConcat(a: seq<nat>, b: seq<nat>)
    requires Sorted(a) && Sorted(b) && (|a| > 0 && |b| > 0 ==> a[|a| - 1] <= b[0])
    ensures Sorted(a + b)
  {
    forall i, j | 0 <= i < j < |a + b| ensures (a + b)[i] <= (a + b)[j] {
      if i < |a| <= j {
        assert a[i] <= a[|a| - 1] && b[0] <= b[j - |a|];
      }
    }
  }

  lemma {:induction false} DistinctCounts(s: seq<nat>)
    ensures Distinct(s) <==> forall x: nat :: multiset(s)[x] <= 1
  {
    if |s| > 0 {
      var n := |s| - 1;
      var front, last := s[..n], s[n];
      DistinctCounts(front);
      assert s == front + [last];
      assert multiset(s) == multiset(front) + multiset{last};
      if Distinct(s) {
        assert last !in front;
      } else if Distinct(front) {
        var i, j :| 0 <= i < j < |s| && s[i] == s[j];
        assert j == n && front[i] == last;
        assert last in front;
        assert multiset(s)[last] >= 2;
      } else {
        var x: nat :| multiset(front)[x] > 1;
        assert multiset(s)[x] > 1;
      }
    }
  }

  lemma SameElements(a: seq<nat>, b: seq<nat>)
    requires multiset(a) == multiset(b)
    ensures forall x: nat :: x in a <==> x in b
    ensures Distinct(a) <==> Distinct(b)
  {
    forall x: nat ensures x in a <==> x in b {
      assert x in a <==> x in multiset(a);
      assert x in b <==> x in multiset(b);
    }
    DistinctCounts(a);
    DistinctCounts(b);
  }

  lemma CoversPush(rs: seq<SlotRange>, r: SlotRange)
    ensures forall j: nat :: Covers(rs + [r], j) <==> Covers(rs, j) || InRange(r, j)
  {
    forall j: nat ensures Covers(rs + [r], j) <==> Covers(rs, j) || InRange(r, j) {
      CoversConcat(rs, [r], j);
      CoversOne(r, j);
    }
  }

  lemma SeparatedPush(rs: seq<SlotRange>, last: SlotRange, r: SlotRange)
    requires Separated(rs + [last]) && r.start <= r.end && last.end + 1 < r.start
    ensures Separated(rs + [last] + [r])
  {
    var a, b := rs + [last], rs + [last] + [r];
    assert forall k :: 0 <= k < |a| ==> b[k] == a[k];
    forall k, l | 0 <= k < l < |b| ensures b[k].end + 1 < b[l].start {
      if l == |a| {
        assert b[l] == r && a[|rs|] == last;
        if k < |rs| { assert a[k].end + 1 < a[|rs|].start; }
      }
    }
  }

  lemma SeparatedGrow(rs: seq<SlotRange>, last: SlotRange, end: nat)
    requires Separated(rs + [last]) && last.end <= end
    ensures Separated(rs + [SlotRange(last.start, end)])
  {
    var a, b := rs + [last], rs + [SlotRange(last.start, end)];
    assert forall k :: 0 <= k < |rs| ==> b[k] == a[k];
    forall k, l | 0 <= k < l < |b| ensures b[k].end + 1 < b[l].start {
      assert a[k].end + 1 < a[l].start;
    }
    assert a[|rs|] == last;
  }

  /**
    mergeConsecutiveSlots: the ranges cover exactly the given slots, in any order and with any
    repeats; without repeats they are sorted, disjoint and never adjacent.
   */
  method MergeConsecutiveSlots(slots: seq<nat>) returns (ranges: seq<SlotRange>)
    ensures forall j: nat :: Covers(ranges, j) <==> j in slots
    ensures Distinct(slots) ==> Separated(ranges)
    ensures (forall j :: j in slots ==> j < SLOT_COUNT) ==> InTable(ranges)
  {
    if |slots| == 0 { return []; }
    var sorted := SortSlots(slots);
    SameElements(sorted, slots);
    assert |sorted| > 0 by { assert slots[0] in sorted; }
    ranges := MergeSorted(sorted);
    if forall j :: j in slots ==> j < SLOT_COUNT {
      forall k | 0 <= k < |ranges| ensures ranges[k].end < SLOT_COUNT {
        assert InRange(ranges[k], ranges[k].end);
        assert Covers(ranges, ranges[k].end);
      }
    }
  }

  method MergeSorted(sorted: seq<nat>) returns (ranges: seq<SlotRange>)
    requires |sorted| > 0 && Sorted(sorted)
    ensures forall j: nat :: Covers(ranges, j) <==> j in sorted
    ensures forall k :: 0 <= k < |ranges| ==> ranges[k].start <= ranges[k].end
    ensures Distinct(sorted) ==> Separated(ranges)
  {
    ranges := [];
    var start: nat, end: nat := sorted[0], sorted[0];
    var i := 1;
    while i < |sorted|
      invariant 1 <= i <= |sorted| && start <= end == sorted[i - 1]
      invariant forall k :: 0 <= k < |ranges| ==> ranges[k].start <= ranges[k].end
      invariant forall j: nat :: Covers(ranges, j) || start <= j <= end <==> j in sorted[..i]
      invariant Distinct(sorted) ==> Separated(ranges + [SlotRange(start, end)])
    {
      assert sorted[..i + 1] == sorted[..i] + [sorted[i]];
      if sorted[i] == end + 1 {
        if Distinct(sorted) { SeparatedGrow(ranges, SlotRange(start, end), sorted[i]); }
        end := sorted[i];
      } else {
        CoversPush(ranges, SlotRange(start, end));
        if Distinct(sorted) { SeparatedPush(ranges, SlotRange(start, end), SlotRange(sorted[i], sorted[i])); }
        ranges := ranges + [SlotRange(start, end)];
        start, end := sorted[i], sorted[i];
      }
      i := i + 1;
    }
    assert sorted[..i] == sorted;
    CoversPush(ranges, SlotRange(start, end));
    ranges := ranges + [SlotRange(start, end)];
  }
}
