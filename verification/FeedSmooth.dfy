/**
  Runs in which nothing goes wrong on the wire: every commit is logged, no send fails and no
  frame is skipped. In them neither continuity check ever fires.
 */
module FeedSmooth {
  import opened FeedProtocol
  import opened FeedSafety

  /** Every timestamp whose attempt has finished has a log key. */
  ghost predicate Dense(m: Master) {
    forall t: nat {:trigger t in m.hist} :: 1 <= t < m.next && t !in m.pending ==> t in m.hist
  }

  /** The frame FeedSlave will send next has this timestamp. */
  function Upcoming(l: Link): nat { l.start + |l.sent| }

  /** The frames are those of consecutive timestamps from `from`. */
  ghost predicate Consecutive(frames: seq<Frame>, from: nat) {
    forall i :: 0 <= i < |frames| ==> frames[i].ts == from + i
  }

  ghost predicate SmoothLink(m: Master, r: Replica, l: Link) {
    && 1 <= l.start && Consecutive(l.sent, l.start)
    && Consecutive(l.wire, r.applied + 1)
    && r.applied + 1 + |l.wire| == Upcoming(l)
    && m.trim <= l.cursor && 1 <= l.cursor
    && (l.holder.None? ==> l.cursor == Upcoming(l))
    && (l.holder.Some? ==>
          l.cursor + l.holder.value.sent == Upcoming(l) && Consecutive(l.holder.value.batch, l.cursor))
  }

  ghost predicate SmoothInv(s: State) {
    && MasterInv(s.master)
    && Dense(s.master)
    && (s.master.hist != map[] ==> CurrentTS(s.master) > 0)
    && (s.link.Some? ==> SmoothLink(s.master, s.replica, s.link.value))
  }

  /**
    Every attempt writes its key before it ends, sends succeed, commands apply, and trimming
    keeps the newest key and stays behind the cursor.
   */
  ghost predicate Smooth(s: State, e: Event) {
    match e
    case End(ts) => ts in s.master.hist
    case Trim(bound) => bound <= CurrentTS(s.master) && (s.link.Some? ==> bound <= s.link.value.cursor)
    case Restart(next) => s.master.pending == {} && next == s.master.next
    case PushSend(fate) => fate == Sent
    case Receive(outcome) => outcome == Applied
    case _ => true
  }

  ghost predicate SmoothRun(s: State, events: seq<Event>)
    requires IsRun(s, events)
    decreases |events|
  {
    events == [] || (Smooth(s, events[0]) && SmoothRun(Next(s, events[0]), events[1..]))
  }

  /** A range read over keys that are all present has no gap. */
  lemma {:induction false} RangeDense(m: Master, since: nat, upto: nat)
    requires m.trim <= since && forall t: nat :: since <= t <= upto ==> t in m.hist
    ensures Consecutive(Range(m, since, upto), since)
    ensures |Range(m, since, upto)| == if upto < since then 0 else upto + 1 - since
    decreases upto + 1 - since
  {
    if since <= upto {
      RangeDense(m, since + 1, upto);
    }
  }

  lemma {:induction false} LastKeyGrows(m: Master, m': Master, n: nat, n': nat)
    requires n <= n' && LastKey(m, n) > 0 && InLog(m', LastKey(m, n))
    ensures LastKey(m', n') > 0
  {}

  lemma CommitSmooth(s: State, e: Event)
    requires SmoothInv(s) && Enabled(s, e) && Smooth(s, e) && (e.Commit? || e.End?)
    ensures SmoothInv(Next(s, e))
  {
    var m := s.master;
    if e.Commit? {
      assert InLog(Next(s, e).master, e.ts);
    } else {
      AdvanceSettled(m.done, m.next, m.pending - {e.ts});
    }
  }

  lemma LogSmooth(s: State, e: Event)
    requires SmoothInv(s) && Enabled(s, e) && Smooth(s, e) && (e.Begin? || e.Trim?)
    ensures SmoothInv(Next(s, e))
  {
    var m, m' := s.master, Next(s, e).master;
    if m.hist != map[] { LastKeyGrows(m, m', m.next - 1, m'.next - 1); }
  }

  lemma ConnectSmooth(s: State)
    requires SmoothInv(s) && Enabled(s, Connect)
    ensures SmoothInv(Next(s, Connect))
  {
    var m := s.master;
    if HandlePSync(m, s.replica.replId, RequestedTS(s.replica)).FullResync? {
      if CurrentTS(m) == 0 {
        assert m.hist == map[];
        assert m.next == 1 by { assert 1 !in m.hist; }
      }
    } else {
      assert InLog(m, StartTS(m));
    }
  }

  lemma PushSmooth(s: State, e: Event)
    requires SmoothInv(s) && Enabled(s, e) && Smooth(s, e) && (e.PushStart? || e.PushSend?)
    ensures SmoothInv(Next(s, e))
  {
    hide OnWire;
    if e.PushStart? { RangeDense(s.master, s.link.value.cursor, e.upto); }
  }

  lemma ReceiveSmooth(s: State)
    requires SmoothInv(s) && Enabled(s, Receive(Applied))
    ensures SmoothInv(Next(s, Receive(Applied)))
  {}

  lemma SmoothStep(s: State, e: Event)
    requires SmoothInv(s) && Enabled(s, e) && Smooth(s, e)
    ensures SmoothInv(Next(s, e))
  {
    match e
    case Begin => LogSmooth(s, e);
    case Commit(_, _) => CommitSmooth(s, e);
    case End(_) => CommitSmooth(s, e);
    case Trim(_) => LogSmooth(s, e);
    case Restart(_) =>
    case NewMaster(_) =>
    case Connect => ConnectSmooth(s);
    case LoadRdb =>
    case LoadRdbFails(_) =>
    case PushStart(_) => PushSmooth(s, e);
    case PushSend(_) => PushSmooth(s, e);
    case Receive(_) => ReceiveSmooth(s);
    case Disconnect =>
  }

  lemma {:induction false} SmoothRunInv(s: State, events: seq<Event>)
    requires SmoothInv(s) && IsRun(s, events) && SmoothRun(s, events)
    ensures SmoothInv(Run(s, events))
    decreases |events|
  {
    if events != [] {
      SmoothStep(s, events[0]);
      SmoothRunInv(Next(s, events[0]), events[1..]);
    }
  }

  /**
    In a smooth run every connection carries exactly the consecutive timestamps from its
    activation cursor, however many callers push on it; every batch passes the master's
    continuity check and every frame the slave's.
   */
  lemma SmoothFeed(id: string, events: seq<Event>)
    requires id != "" && IsRun(InitState(id), events) && SmoothRun(InitState(id), events)
    ensures var s := Run(InitState(id), events);
            s.link.Some? ==>
              var l := s.link.value;
              Consecutive(l.sent, l.start) &&
              (forall upto: nat :: upto <= s.master.done ==> Continuous(Range(s.master, l.cursor, upto))) &&
              (l.wire != [] ==> l.wire[0].ts == s.replica.applied + 1)
  {
    SmoothRunInv(InitState(id), events);
    var s := Run(InitState(id), events);
    if s.link.Some? {
      forall upto: nat | upto <= s.master.done
        ensures Continuous(Range(s.master, s.link.value.cursor, upto))
      {
        RangeDense(s.master, s.link.value.cursor, upto);
      }
    }
  }

  /** A CONTINUE for `ts` activates the feed at `ts + 1`, and the key there is not trimmed. */
  lemma ContinueResumes(s: State)
    requires Inv(s) && Enabled(s, Connect)
    requires HandlePSync(s.master, s.replica.replId, RequestedTS(s.replica)).Continue?
    ensures var s' := Next(s, Connect);
            s'.replica == s.replica && s'.link.value.start == s.replica.applied + 1 &&
            s.master.trim <= s.replica.applied
  {}
}
