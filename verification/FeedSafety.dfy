/**
  What every run of the feed keeps: the replica's store is the last snapshot followed by what
  the feed delivered up to the replica's watermark, and when that is the master's log replayed.
 */
module FeedSafety {
  import opened Basics
  import opened FeedProtocol
  import C = FeedCodec

  // -------------------------------------------------------------- the invariant

  /** Nothing at or below `ts` can still be committed. */
  ghost predicate Settled(m: Master, ts: nat) {
    ts < m.next && forall p :: p in m.pending ==> ts < p
  }

  ghost predicate MasterInv(m: Master) {
    && 1 <= m.next
    && m.trim <= m.next
    && (forall t :: t in m.hist ==> 1 <= t < m.next)
    && (forall p :: p in m.pending ==> m.trim <= p < m.next)
    && Settled(m, m.done)
  }

  ghost predicate Genuine(m: Master, f: Frame) {
    f.ts > 0 && f.ts in m.hist && OnWire(m.hist[f.ts]) == Some(f.cmd) && Settled(m, f.ts)
  }

  ghost predicate AllGenuine(m: Master, frames: seq<Frame>) {
    forall i :: 0 <= i < |frames| ==> Genuine(m, frames[i])
  }

  ghost predicate LinkInv(m: Master, l: Link) {
    && AllGenuine(m, l.wire)
    && (l.holder.Some? ==>
          var p := l.holder.value;
          p.sent < |p.batch| && AllGenuine(m, p.batch))
  }

  /** Accepting `ts` from the snapshot point `covered` skips no data command. */
  ghost predicate Follows(m: Master, covered: nat, ts: nat) {
    covered < ts && NoData(m.hist, covered, ts)
  }

  /**
    At watermark 0 the replica accepts whatever comes first, so the first frame to arrive
    has to be the first data command after the snapshot.
   */
  ghost predicate ZeroInv(m: Master, r: Replica, l: Link) {
    && (forall t :: t in m.hist && r.covered < t && !IsNoop(m.hist[t]) ==> m.trim <= t)
    && (forall t :: t in m.hist && t <= r.covered ==> t < m.trim)
    && (l.wire != [] ==> Follows(m, r.covered, l.wire[0].ts))
    && (l.wire == [] ==> l.cursor == 1)
    && (l.wire == [] && l.holder.Some? ==>
          var p := l.holder.value;
          p.sent == 0 && p.batch != [] && Follows(m, r.covered, p.batch[0].ts))
  }

  /** The snapshot on its way if there is one, otherwise the store. */
  function Image(r: Replica, link: Option<Link>): seq<Command> {
    if link.Some? && link.value.rdb.Some? then link.value.rdb.value else r.store
  }

  /** The replica belongs to this master's history and holds a usable position in it. */
  ghost predicate Bound(s: State) {
    s.replica.replId == s.master.id && (s.replica.applied > 0 || s.link.Some?)
  }

  ghost predicate PositionInv(s: State) {
    var m, r := s.master, s.replica;
    && Settled(m, r.covered)
    && (r.applied > 0 ==> r.covered == r.applied && r.applied in m.hist)
  }

  ghost predicate Inv(s: State) {
    var m, r := s.master, s.replica;
    && MasterInv(m)
    && (s.link.Some? ==> r.replId == m.id && LinkInv(m, s.link.value))
    && (Bound(s) ==> PositionInv(s))
    && (Bound(s) && !r.damaged ==>
          r.base <= r.covered && Image(r, s.link) == Replay(m.hist, r.base) + Delivered(m.hist, r.base, r.covered))
    && (Bound(s) && !r.damaged && s.link.Some? && r.applied == 0 ==> ZeroInv(m, r, s.link.value))
  }

  // -------------------------------------------------------- facts about the log

  /** Replaying looks only at the log up to its bound. */
  lemma {:induction false} ReplayFrame(h: map<nat, Command>, h': map<nat, Command>, upto: nat)
    requires forall t :: t <= upto ==> (t in h <==> t in h') && (t in h ==> h[t] == h'[t])
    ensures Replay(h, upto) == Replay(h', upto)
  {
    if upto > 0 { ReplayFrame(h, h', upto - 1); }
  }

  /** A stretch without data commands adds nothing. */
  lemma {:induction false} ReplaySkip(h: map<nat, Command>, lo: nat, hi: nat)
    requires lo <= hi && NoData(h, lo, hi + 1)
    ensures Replay(h, hi) == Replay(h, lo)
    decreases hi
  {
    if lo < hi {
      assert !IsData(h, hi);
      ReplaySkip(h, lo, hi - 1);
    }
  }

  /** A stretch with a data command makes the replay longer. */
  lemma {:induction false} ReplayLength(h: map<nat, Command>, lo: nat, hi: nat)
    requires lo <= hi
    ensures |Replay(h, lo)| <= |Replay(h, hi)|
    ensures |Replay(h, lo)| == |Replay(h, hi)| <==> NoData(h, lo, hi + 1)
    decreases hi
  {
    if lo < hi { ReplayLength(h, lo, hi - 1); }
  }

  lemma {:induction false} DeliveredFrame(h: map<nat, Command>, h': map<nat, Command>, lo: nat, hi: nat)
    requires forall t :: t <= hi ==> (t in h <==> t in h') && (t in h ==> h[t] == h'[t])
    ensures Delivered(h, lo, hi) == Delivered(h', lo, hi)
    decreases hi
  {
    hide OnWire;
    if lo < hi { DeliveredFrame(h, h', lo, hi - 1); }
  }

  lemma ShowsNothing(h: map<nat, Command>, t: nat)
    requires !IsData(h, t)
    ensures Shown(h, t) == []
  {
    if t in h && OnWire(h[t]).Some? {
      hide C.ParseLogValue, C.Serialize;
      C.NoopStays(h[t]);
    }
  }

  /** Tombstones are delivered as tombstones: a stretch without data commands shows nothing. */
  lemma {:induction false} DeliveredSkip(h: map<nat, Command>, lo: nat, mid: nat, hi: nat)
    requires lo <= mid <= hi && NoData(h, mid, hi + 1)
    ensures Delivered(h, lo, hi) == Delivered(h, lo, mid)
    decreases hi
  {
    hide OnWire;
    if mid < hi {
      assert !IsData(h, hi);
      ShowsNothing(h, hi);
      DeliveredSkip(h, lo, mid, hi - 1);
    }
  }

  /** Every data command logged after `lo` and up to `hi` comes out of the log parser as it went in. */
  ghost predicate Clean(h: map<nat, Command>, lo: nat, hi: nat) {
    forall t :: t in h && lo < t <= hi && !IsNoop(h[t]) ==> C.Survives(h[t])
  }

  /** Snapshot and feed together are the log replayed exactly when every data command in between survives. */
  lemma {:induction false} DeliveredExact(h: map<nat, Command>, lo: nat, hi: nat)
    requires lo <= hi
    ensures |Replay(h, lo) + Delivered(h, lo, hi)| <= |Replay(h, hi)|
    ensures Replay(h, lo) + Delivered(h, lo, hi) == Replay(h, hi) <==> Clean(h, lo, hi)
    decreases hi
  {
    hide OnWire, C.Survives;
    if lo < hi {
      DeliveredExact(h, lo, hi - 1);
      DeliveredOneMore(h, lo, hi);
    }
  }

  lemma DeliveredOneMore(h: map<nat, Command>, lo: nat, hi: nat)
    requires lo < hi && |Replay(h, lo) + Delivered(h, lo, hi - 1)| <= |Replay(h, hi - 1)|
    requires Replay(h, lo) + Delivered(h, lo, hi - 1) == Replay(h, hi - 1) <==> Clean(h, lo, hi - 1)
    ensures |Replay(h, lo) + Delivered(h, lo, hi)| <= |Replay(h, hi)|
    ensures Replay(h, lo) + Delivered(h, lo, hi) == Replay(h, hi) <==> Clean(h, lo, hi)
  {
    var got, due := Replay(h, lo) + Delivered(h, lo, hi - 1), Replay(h, hi - 1);
    assert Replay(h, lo) + Delivered(h, lo, hi) == got + Shown(h, hi);
    if IsData(h, hi) {
      assert Replay(h, hi) == due + [h[hi]];
      WireExact(h[hi]);
      AppendExact(got, Shown(h, hi), due, h[hi]);
      assert Clean(h, lo, hi) <==> Clean(h, lo, hi - 1) && C.Survives(h[hi]);
      assert Shown(h, hi) == [h[hi]] <==> C.Survives(h[hi]);
    } else {
      ShowsNothing(h, hi);
      assert got + [] == got && Replay(h, hi) == due;
      assert Clean(h, lo, hi) <==> Clean(h, lo, hi - 1);
    }
  }

  lemma WireExact(cmd: Command)
    ensures OnWire(cmd) == Some(cmd) <==> C.Survives(cmd)
  {
    hide C.ParseLogValue, C.Serialize;
    C.LogValueExact(cmd);
  }

  lemma AppendExact(a: seq<Command>, x: seq<Command>, b: seq<Command>, y: Command)
    requires |a| <= |b| && |x| <= 1
    ensures |a + x| <= |b + [y]|
    ensures a + x == b + [y] <==> a == b && x == [y]
  {
    if a + x == b + [y] {
      assert |a| == |b| && |x| == 1;
      assert a == (a + x)[..|a|] && b == (b + [y])[..|b|];
      assert (a + x)[|a|] == x[0] && (b + [y])[|b|] == y;
    }
  }

  lemma {:induction false} AdvanceSettled(done: nat, next: nat, pending: set<nat>)
    requires done < next && forall p :: p in pending ==> done < p
    ensures done <= Advance(done, next, pending) < next
    ensures forall p :: p in pending ==> Advance(done, next, pending) < p
    decreases next - done
  {
    if done + 1 < next && done + 1 !in pending { AdvanceSettled(done + 1, next, pending); }
  }

  /** The first key of a range read: nothing is logged between the lower bound and it. */
  lemma {:induction false} RangeFirst(m: Master, since: nat, upto: nat)
    ensures var b := Range(m, since, upto);
            forall t :: t in m.hist && since <= t <= upto && (b == [] || t < b[0].ts) ==> t < m.trim
    decreases upto + 1 - since
  {
    if since <= upto && !InLog(m, since) {
      RangeFirst(m, since + 1, upto);
      assert Range(m, since, upto) == Range(m, since + 1, upto);
    }
  }

  /** The frames made from a range read stand for settled keys, one each and in order. */
  lemma RangeGenuine(m: Master, since: nat, upto: nat)
    requires MasterInv(m) && upto <= m.done && Framed(Range(m, since, upto)).Some?
    ensures var batch, frames := Range(m, since, upto), Framed(Range(m, since, upto)).value;
            AllGenuine(m, frames) && |frames| == |batch| && forall i :: 0 <= i < |batch| ==> frames[i].ts == batch[i].ts
  {
    hide OnWire;
    var frames := Framed(Range(m, since, upto)).value;
    forall i | 0 <= i < |frames| ensures Genuine(m, frames[i]) {}
  }

  lemma CurrentIsLast(m: Master)
    requires MasterInv(m)
    ensures forall t :: t in m.hist && t > CurrentTS(m) ==> t < m.trim
    ensures CurrentTS(m) < m.next
  {}

  /** A commit at a pending timestamp leaves settled facts alone. */
  lemma CommitKeeps(m: Master, ts: nat, cmd: Command)
    requires MasterInv(m) && ts in m.pending && ts !in m.hist
    ensures var m' := m.(hist := m.hist[ts := cmd]);
            (forall f | Genuine(m, f) :: Genuine(m', f)) &&
            (forall c | Settled(m, c) :: Replay(m'.hist, c) == Replay(m.hist, c)) &&
            (forall b, c | Settled(m, c) :: Delivered(m'.hist, b, c) == Delivered(m.hist, b, c))
  {
    hide OnWire;
    var m' := m.(hist := m.hist[ts := cmd]);
    forall b, c | Settled(m, c) ensures Delivered(m'.hist, b, c) == Delivered(m.hist, b, c) {
      DeliveredFrame(m'.hist, m.hist, b, c);
    }
    forall c | Settled(m, c) ensures Replay(m'.hist, c) == Replay(m.hist, c) {
      ReplayFrame(m'.hist, m.hist, c);
    }
  }

  // ------------------------------------------------------- every step keeps it

  lemma CommitInv(s: State, ts: nat, cmd: Command)
    requires Inv(s) && Enabled(s, Commit(ts, cmd))
    ensures Inv(Next(s, Commit(ts, cmd)))
  {
    hide OnWire;
    CommitKeeps(s.master, ts, cmd);
  }

  lemma EndInv(s: State, ts: nat)
    requires Inv(s) && Enabled(s, End(ts))
    ensures Inv(Next(s, End(ts)))
  {
    hide OnWire;
    AdvanceSettled(s.master.done, s.master.next, s.master.pending - {ts});
  }

  lemma TrimInv(s: State, bound: nat)
    requires Inv(s) && Enabled(s, Trim(bound))
    ensures Inv(Next(s, Trim(bound)))
  {
    hide OnWire;
  }

  lemma DropInv(s: State)
    requires Inv(s)
    ensures Inv(Drop(s))
  {
    hide OnWire;
  }

  lemma RestartInv(s: State, next: nat)
    requires Inv(s) && Enabled(s, Restart(next))
    ensures Inv(Next(s, Restart(next)))
  {
    hide OnWire;
  }

  lemma ConnectInv(s: State)
    requires Inv(s) && Enabled(s, Connect)
    ensures Inv(Next(s, Connect))
  {
    hide OnWire;
    var m := s.master;
    if HandlePSync(m, s.replica.replId, RequestedTS(s.replica)).FullResync? {
      CurrentIsLast(m);
      var ts := CurrentTS(m);
      if ts > 0 { ReplaySkip(m.hist, ts, m.next - 1); }
      var c := Next(s, Connect).replica.covered;
      assert Replay(m.hist, c) + Delivered(m.hist, c, c) == Replay(m.hist, c);
    }
  }

  lemma PushStartInv(s: State, upto: nat)
    requires Inv(s) && Enabled(s, PushStart(upto))
    ensures Inv(Next(s, PushStart(upto)))
  {
    hide OnWire;
    var l := s.link.value;
    if Framed(Range(s.master, l.cursor, upto)).Some? { RangeGenuine(s.master, l.cursor, upto); }
    hide Framed;
    RangeFirst(s.master, l.cursor, upto);
  }

  lemma PushSendInv(s: State, fate: Fate)
    requires Inv(s) && Enabled(s, PushSend(fate))
    ensures Inv(Next(s, PushSend(fate)))
  {
    hide OnWire;
    var l, l' := s.link.value, PushSendStep(s.link.value, fate);
    assert l.wire != [] && l'.wire != [] ==> l'.wire[0] == l.wire[0];
  }

  lemma ReceiveInv(s: State, outcome: Outcome)
    requires Inv(s) && Enabled(s, Receive(outcome))
    ensures Inv(Next(s, Receive(outcome)))
  {
    hide OnWire;
    var m, r, f := s.master, s.replica, s.link.value.wire[0];
    if GapCheckPasses(r.applied, f.ts) && !r.damaged {
      if r.applied == 0 { DeliveredSkip(m.hist, r.base, r.covered, f.ts - 1); }
      var was := Replay(m.hist, r.base) + Delivered(m.hist, r.base, r.covered);
      assert Delivered(m.hist, r.base, f.ts) == Delivered(m.hist, r.base, r.covered) + Shown(m.hist, f.ts);
      assert Replay(m.hist, r.base) + Delivered(m.hist, r.base, f.ts) == was + Shown(m.hist, f.ts);
      assert was + [] == was;
    }
  }

  /** Every enabled event keeps the invariant. */
  lemma StepInv(s: State, e: Event)
    requires Inv(s) && Enabled(s, e)
    ensures Inv(Next(s, e))
  {
    hide OnWire;
    match e
    case Begin =>
    case Commit(ts, cmd) => CommitInv(s, ts, cmd);
    case End(ts) => EndInv(s, ts);
    case Trim(bound) => TrimInv(s, bound);
    case Restart(next) => RestartInv(s, next);
    case NewMaster(id) =>
    case Connect => ConnectInv(s);
    case LoadRdb =>
    case LoadRdbFails(junk) =>
    case PushStart(upto) => PushStartInv(s, upto);
    case PushSend(fate) => PushSendInv(s, fate);
    case Receive(outcome) => ReceiveInv(s, outcome);
    case Disconnect => DropInv(s);
  }

  // ------------------------------------------------------------- the theorems

  /** The replica stands exactly where its watermark says. */
  ghost predicate Faithful(s: State) {
    s.replica.store == Replay(s.master.hist, s.replica.applied)
  }

  /**
    The steps the continuity check cannot protect against: losing the connection between a
    FULLRESYNC reply and the end of the RDB load, and losing a data command while the
    watermark is still 0.
   */
  ghost predicate Hazard(s: State, e: Event) {
    var pendingRdb := s.link.Some? && s.link.value.rdb.Some?;
    match e
    case Restart(_) => pendingRdb
    case NewMaster(_) => pendingRdb
    case Disconnect => pendingRdb
    case LoadRdbFails(_) => true
    case Receive(o) => o == KeyNotFound && s.replica.applied == 0
    case Trim(bound) => s.link.Some? && s.replica.applied == 0 && !NoData(s.master.hist, s.replica.covered, bound)
    case _ => false
  }

  ghost predicate HazardFree(s: State, events: seq<Event>)
    requires IsRun(s, events)
    decreases |events|
  {
    events == [] || (!Hazard(s, events[0]) && HazardFree(Next(s, events[0]), events[1..]))
  }

  lemma {:induction false} RunInv(s: State, events: seq<Event>)
    requires Inv(s) && IsRun(s, events)
    ensures Inv(Run(s, events))
    ensures !s.replica.damaged && HazardFree(s, events) ==> !Run(s, events).replica.damaged
    decreases |events|
  {
    hide OnWire;
    if events != [] {
      StepInv(s, events[0]);
      RunInv(Next(s, events[0]), events[1..]);
    }
  }

  /** A replica of the current master, with a watermark and nothing it cannot know of in its past. */
  ghost predicate Standing(s: State) {
    s.replica.replId == s.master.id && s.replica.applied > 0 && !s.replica.damaged &&
    (s.link.Some? ==> s.link.value.rdb.None?)
  }

  /**
    In every run a standing replica holds its last snapshot followed by what the feed delivered
    up to its watermark, once each and in order. That is exactly the data commands logged up to
    the watermark if and only if every one of them logged since the snapshot is loggable and has
    no CR LF in an argument. Without a hazard a replica of the current master is never damaged.
   */
  lemma ReplicaIsFaithful(id: string, events: seq<Event>)
    requires id != "" && IsRun(InitState(id), events)
    ensures var s := Run(InitState(id), events);
            Standing(s) ==>
              s.replica.base <= s.replica.applied &&
              s.replica.store == Replay(s.master.hist, s.replica.base) + Delivered(s.master.hist, s.replica.base, s.replica.applied) &&
              (Faithful(s) <==> Clean(s.master.hist, s.replica.base, s.replica.applied))
    ensures HazardFree(InitState(id), events) ==> !Run(InitState(id), events).replica.damaged
  {
    hide OnWire;
    RunInv(InitState(id), events);
    var s := Run(InitState(id), events);
    if Standing(s) { DeliveredExact(s.master.hist, s.replica.base, s.replica.applied); }
  }

  /** A frame the store already covers is refused: the connection drops and nothing changes. */
  lemma CoveredFrameRefused(s: State, outcome: Outcome)
    requires Enabled(s, Receive(outcome)) && !s.replica.damaged
    requires s.link.value.wire[0].ts <= s.replica.covered && Inv(s)
    ensures Next(s, Receive(outcome)) == s.(link := None)
  {
    hide OnWire;
  }

  /**
    At watermark 0 the gap check is skipped. Accepting a frame then is right exactly when no data
    command is logged between the snapshot and that frame and the frame's own survives.
   */
  lemma AcceptAtZeroExact(s: State)
    requires Inv(s) && Enabled(s, Receive(Applied))
    requires s.replica.applied == 0 && s.replica.store == Replay(s.master.hist, s.replica.covered)
    requires s.replica.covered < s.link.value.wire[0].ts
    ensures var h, c, ts := s.master.hist, s.replica.covered, s.link.value.wire[0].ts;
            Faithful(Next(s, Receive(Applied))) <==> NoData(h, c, ts) && (IsData(h, ts) ==> C.Survives(h[ts]))
  {
    hide OnWire, C.Survives;
    var h, c, f := s.master.hist, s.replica.covered, s.link.value.wire[0];
    ReplayLength(h, c, f.ts - 1);
    if NoData(h, c, f.ts) { ReplaySkip(h, c, f.ts - 1); }
    assert Next(s, Receive(Applied)).replica.store == s.replica.store + Shown(h, f.ts);
    if IsData(h, f.ts) {
      WireExact(h[f.ts]);
      AppendExact(s.replica.store, Shown(h, f.ts), Replay(h, f.ts - 1), h[f.ts]);
    } else {
      ShowsNothing(h, f.ts);
    }
  }

  /**
    A full resync cut off before its RDB is loaded leaves whatever store there was under the new
    watermark: if that store is the log replayed up to some point, right exactly when no data
    command was logged after it.
   */
  lemma InterruptedResyncExact(s: State, c: nat)
    requires Enabled(s, Connect) && c <= CurrentTS(s.master) && s.replica.store == Replay(s.master.hist, c)
    requires HandlePSync(s.master, s.replica.replId, RequestedTS(s.replica)).FullResync?
    ensures var s' := Next(Next(s, Connect), Disconnect);
            s'.replica.store == s.replica.store && s'.replica.applied == CurrentTS(s.master) &&
            (Faithful(s') <==> NoData(s.master.hist, c, s'.replica.applied + 1))
  {
    var h, n := s.master.hist, CurrentTS(s.master);
    ReplayLength(h, c, n);
    if NoData(h, c, n + 1) { ReplaySkip(h, c, n); }
  }
}
