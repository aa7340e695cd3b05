/**
  The objects that take the feed's steps: the timestamp source, the commit path that writes
  log keys, the master's connection with its cursor, and the replica's reconnector. Every
  method is proved against the step of FeedProtocol it performs.
 */
module FeedRuntime {
  import opened Basics
  import opened FeedProtocol
  import C = FeedCodec
  import R = RespCodec

  // ----------------------------------------------------------- timestamp source

  class TsSource {
    var next: nat
    var pending: set<nat>
    var done: nat

    /** Attempts in flight were handed out, and lie above the completed prefix. */
    ghost predicate Valid()
      reads this
    {
      done < next && forall p :: p in pending ==> done < p < next
    }

    constructor ()
      ensures Valid() && next == 1 && pending == {} && done == 0
    {
      next, pending, done := 1, {}, 0;
    }

    method Begin() returns (ts: nat)
      requires Valid()
      modifies this
      ensures Valid()
      ensures ts == old(next) && next == ts + 1 && pending == old(pending) + {ts} && done == old(done)
    {
      ts := next;
      next := next + 1;
      pending := pending + {ts};
    }

    /** An attempt is over, one way or the other; the watermark moves over the finished prefix. */
    method End(ts: nat)
      requires Valid()
      modifies this
      ensures Valid()
      ensures next == old(next) && pending == old(pending) - {ts}
      ensures done == Advance(old(done), next, pending)
      ensures forall t :: old(done) < t <= done ==> t !in pending
      ensures done + 1 == next || done + 1 in pending
    {
      pending := pending - {ts};
      while done + 1 < next && done + 1 !in pending
        invariant old(done) <= done && Valid()
        invariant Advance(old(done), next, pending) == Advance(done, next, pending)
        invariant forall t :: old(done) < t <= done ==> t !in pending
        invariant next == old(next) && pending == old(pending) - {ts}
        decreases next - done
      {
        done := done + 1;
      }
    }
  }

  // --------------------------------------------------------------- the commit path

  /** How the pieces of one commit attempt turn out; `value` is what the caller wants logged. */
  datatype Attempt = Attempt(bodyOk: bool, value: Option<Command>, setOk: bool,
                             commitOk: bool, tombstoneOk: bool)

  const TOMBSTONE: Command := [NOOP]

  class CommitLog {
    const source: TsSource
    var log: map<nat, Command>

    ghost predicate Valid()
      reads this, source
    {
      source.Valid() && forall t :: t in log ==> t < source.next
    }

    /** Every finished timestamp has its key. */
    ghost predicate Dense()
      reads this, source
    {
      forall t: nat {:trigger t in log} :: 1 <= t < source.next && t !in source.pending ==> t in log
    }

    constructor ()
      ensures Valid() && Dense() && fresh(source) && log == map[] && source.next == 1
    {
      source := new TsSource();
      log := map[];
    }

    /**
      commitTS: one timestamp is used up. A commit with a value logs it there, a failed attempt a
      tombstone if it can, and nothing else is written; the log stays without holes exactly when the
      attempt leaves a key.
     */
    method CommitTS(a: Attempt) returns (ok: bool, ts: nat)
      requires Valid()
      modifies this, source
      ensures Valid()
      ensures ts == old(source.next) && source.next == ts + 1 && source.pending == old(source.pending)
      ensures ok <==> a.bodyOk && (a.value.Some? ==> a.setOk) && a.commitOk
      ensures ok && a.value.Some? ==> log == old(log)[ts := a.value.value]
      ensures !ok && a.tombstoneOk ==> log == old(log)[ts := [NOOP]]
      ensures (if ok then a.value.None? else !a.tombstoneOk) ==> log == old(log)
      ensures old(Dense()) ==> (Dense() <==> if ok then a.value.Some? else a.tombstoneOk)
      ensures source.done == Advance(old(source.done), source.next, source.pending)
    {
      ts := source.Begin();
      if !a.bodyOk {
        WriteTombstone(ts, a.tombstoneOk);
        ok := false;
      } else if a.value.Some? && !a.setOk {
        WriteTombstone(ts, a.tombstoneOk);
        ok := false;
      } else if !a.commitOk {
        WriteTombstone(ts, a.tombstoneOk);
        ok := false;
      } else {
        if a.value.Some? { log := log[ts := a.value.value]; }
        ok := true;
      }
      source.End(ts);
      assert source.pending == old(source.pending);
      assert (if ok then a.value.None? else !a.tombstoneOk) ==> ts !in log && 1 <= ts;
    }

    method WriteTombstone(ts: nat, ok: bool)
      modifies this`log
      ensures log == if ok then old(log)[ts := TOMBSTONE] else old(log)
    {
      if ok { log := log[ts := TOMBSTONE]; }
    }
  }

  // ------------------------------------------------------------- the master's side

  /** verifyFeedTSContinuity. */
  method VerifyContinuity(batch: seq<Frame>) returns (ok: bool)
    ensures ok <==> Continuous(batch)
  {
    var i := 1;
    while i < |batch|
      invariant 1 <= i && forall k :: 1 <= k < i && k < |batch| ==> batch[k].ts == batch[k - 1].ts + 1
    {
      if batch[i].ts != batch[i - 1].ts + 1 { return false; }
      i := i + 1;
    }
    ok := true;
  }

  /** parseReplLogValue: one command, with an argument unless its name needs none. */
  method ParseReplLogValue(value: Bytes) returns (r: Option<Command>)
    ensures r == C.ParseLogValue(value)
  {
    var cmds, ok := C.ParseCommandEvents(value);
    if !ok || |cmds| != 1 || |cmds[0]| < 1 { return None; }
    if |cmds[0]| < 2 {
      var name := ToUpper(cmds[0][0]);
      if name != C.FLUSHDB && name != C.FLUSHALL && name != NOOP { return None; }
    }
    r := Some(cmds[0]);
  }

  /** The loop that turns log keys into frames; the first value that does not parse ends it. */
  method FrameBatch(batch: seq<Frame>) returns (r: Option<seq<Frame>>)
    ensures r == Framed(batch)
  {
    hide C.ParseLogValue, C.Serialize;
    var frames: seq<Frame> := [];
    var i := 0;
    while i < |batch|
      invariant 0 <= i == |frames| <= |batch|
      invariant forall k :: 0 <= k < i ==> OnWire(batch[k].cmd) == Some(frames[k].cmd) && frames[k].ts == batch[k].ts
    {
      var cmd := ParseReplLogValue(C.Serialize(batch[i].cmd));
      assert cmd == OnWire(batch[i].cmd);
      if cmd.None? { return None; }
      frames := frames + [Frame(batch[i].ts, cmd.value)];
      i := i + 1;
    }
    assert Framed(batch).Some? && Framed(batch).value == frames;
    r := Some(frames);
  }

  // ------------------------------------------------------------ what a push owes

  /** A key is missing between two others. */
  ghost predicate Gap(m: Master, lo: nat, hi: nat) {
    exists a: nat, t: nat, c: nat :: lo <= a < t < c <= hi && InLog(m, a) && !InLog(m, t) && InLog(m, c)
  }

  /** A value in the log does not parse. */
  ghost predicate Unreadable(m: Master, lo: nat, hi: nat) {
    exists t: nat :: lo <= t <= hi && InLog(m, t) && OnWire(m.hist[t]).None?
  }

  /** The frame for a log key: its timestamp, and what its value parses to. */
  predicate Carries(f: Frame, key: Frame) { f.ts == key.ts && OnWire(key.cmd) == Some(f.cmd) }

  /**
    A push over the keys from `since` to `done`. It reports success exactly when no key is missing
    between two others, every value parses and every send works. What it has sent then is one frame for
    every key, in order, and the cursor stands behind the last; otherwise the cursor stays.
   */
  ghost predicate Pushes(m: Master, since: nat, done: nat, ready: bool, fate: nat -> Fate,
                         was: seq<Frame>, ok: bool, wire: seq<Frame>, cursor: nat)
  {
    var batch := Range(m, since, done);
    && (ok <==> !Gap(m, since, done) && !Unreadable(m, since, done) &&
                (batch == [] || ready) && forall i :: 0 <= i < |batch| ==> fate(i) == Sent)
    && was <= wire && |wire| <= |was| + |batch|
    && (forall i :: |was| <= i < |wire| ==> Carries(wire[i], batch[i - |was|]))
    && (ok ==> |wire| == |was| + |batch|)
    && (ok && batch != [] ==> cursor == batch[|batch| - 1].ts + 1)
    && (!ok || batch == [] ==> cursor == since)
    && (Gap(m, since, done) || Unreadable(m, since, done) ==> wire == was)
  }

  lemma NoGapInside(m: Master, lo: nat, hi: nat, batch: seq<Frame>)
    requires IsLogOf(m, lo, hi, batch) && Continuous(batch)
    ensures !Gap(m, lo, hi)
  {
    hide InLog, Ascending, Has, Continuous, Holds;
    forall a: nat, t: nat, c: nat | lo <= a < t < c <= hi && InLog(m, a) && InLog(m, c) ensures InLog(m, t) {
      assert Has(batch, a) && Has(batch, c);
      RunOfKeys(batch, a, c, t);
    }
  }

  lemma GapFound(m: Master, lo: nat, hi: nat, batch: seq<Frame>)
    requires IsLogOf(m, lo, hi, batch) && !Continuous(batch)
    ensures Gap(m, lo, hi)
  {
    hide InLog, IsLogOf, Has, Gap;
    var i :| 1 <= i < |batch| && batch[i].ts != batch[i - 1].ts + 1;
    SkipIsGap(m, lo, hi, batch, i);
  }

  lemma SkipIsGap(m: Master, lo: nat, hi: nat, batch: seq<Frame>, i: nat)
    requires IsLogOf(m, lo, hi, batch) && 1 <= i < |batch| && batch[i].ts != batch[i - 1].ts + 1
    ensures Gap(m, lo, hi)
  {
    hide InLog, Has, Holds, Gap, Ascending;
    var t := batch[i - 1].ts + 1;
    KeySkipped(batch, i);
    KeyHeld(m, lo, hi, batch, i - 1);
    KeyHeld(m, lo, hi, batch, i);
    NotHeld(m, lo, hi, batch, t);
    GapAt(m, lo, hi, batch[i - 1].ts, t, batch[i].ts);
  }

  lemma GapAt(m: Master, lo: nat, hi: nat, a: nat, t: nat, c: nat)
    requires lo <= a < t < c <= hi && InLog(m, a) && !InLog(m, t) && InLog(m, c)
    ensures Gap(m, lo, hi)
  {
    hide InLog;
  }

  lemma KeyHeld(m: Master, lo: nat, hi: nat, batch: seq<Frame>, i: nat)
    requires IsLogOf(m, lo, hi, batch) && i < |batch|
    ensures lo <= batch[i].ts <= hi && InLog(m, batch[i].ts)
  {
    assert Holds(m, lo, hi, batch[i]);
  }

  lemma NotHeld(m: Master, lo: nat, hi: nat, batch: seq<Frame>, t: nat)
    requires IsLogOf(m, lo, hi, batch) && !Has(batch, t) && lo <= t <= hi
    ensures !InLog(m, t)
  {
    hide InLog, Has, Ascending, Holds;
  }

  lemma GapExact(m: Master, lo: nat, hi: nat)
    ensures Continuous(Range(m, lo, hi)) <==> !Gap(m, lo, hi)
  {
    hide Range, IsLogOf, Continuous, Gap;
    var batch := Range(m, lo, hi);
    RangeExact(m, lo, hi);
    if Continuous(batch) { NoGapInside(m, lo, hi, batch); } else { GapFound(m, lo, hi, batch); }
  }

  lemma KeySkipped(batch: seq<Frame>, i: nat)
    requires Ascending(batch) && 1 <= i < |batch| && batch[i].ts != batch[i - 1].ts + 1
    ensures batch[i - 1].ts + 1 < batch[i].ts && !Has(batch, batch[i - 1].ts + 1)
  {
    forall k | 0 <= k < |batch| ensures batch[k].ts != batch[i - 1].ts + 1 {
      if k < i - 1 { assert batch[k].ts < batch[i - 1].ts; }
      if k > i { assert batch[i].ts < batch[k].ts; }
    }
  }

  /** Consecutive keys leave out nothing between two of them. */
  lemma RunOfKeys(batch: seq<Frame>, a: nat, c: nat, t: nat)
    requires Continuous(batch) && Ascending(batch) && Has(batch, a) && Has(batch, c) && a <= t <= c
    ensures Has(batch, t)
  {
    var i :| 0 <= i < |batch| && batch[i].ts == a;
    var j :| 0 <= j < |batch| && batch[j].ts == c;
    Consecutive(batch, i, j);
    assert batch[i + (t - a)].ts == t;
  }

  lemma InOrder(batch: seq<Frame>, i: nat, j: nat)
    requires Ascending(batch) && i < |batch| && j < |batch| && batch[i].ts <= batch[j].ts
    ensures i <= j
  {}

  lemma {:induction false} Consecutive(batch: seq<Frame>, i: nat, j: nat)
    requires Continuous(batch) && Ascending(batch) && i < |batch| && j < |batch| && batch[i].ts <= batch[j].ts
    ensures i <= j && forall k :: i <= k <= j ==> batch[k].ts == batch[i].ts + (k - i)
    decreases j
  {
    InOrder(batch, i, j);
    if i < j {
      assert batch[i].ts < batch[j].ts;
      Consecutive(batch, i, j - 1);
    }
  }

  lemma ReadableExact(m: Master, lo: nat, hi: nat)
    ensures Framed(Range(m, lo, hi)).Some? <==> !Unreadable(m, lo, hi)
  {
    var batch := Range(m, lo, hi);
    RangeExact(m, lo, hi);
    hide Range, OnWire;
    if Framed(batch).None? {
      var i :| 0 <= i < |batch| && OnWire(batch[i].cmd).None?;
      assert InLog(m, batch[i].ts);
    }
  }

  lemma NothingPushed(m: Master, since: nat, done: nat, ready: bool, fate: nat -> Fate, was: seq<Frame>, ok: bool)
    requires ok <==> !Gap(m, since, done) && !Unreadable(m, since, done)
    requires ok ==> Range(m, since, done) == []
    ensures Pushes(m, since, done, ready, fate, was, ok, was, since)
  {
    hide Gap, Unreadable, Range;
  }

  lemma BatchPushed(m: Master, since: nat, done: nat, ready: bool, fate: nat -> Fate,
                    was: seq<Frame>, frames: seq<Frame>, ok: bool, wire: seq<Frame>)
    requires !Gap(m, since, done) && !Unreadable(m, since, done)
    requires Framed(Range(m, since, done)) == Some(frames) && frames != []
    requires ok <==> ready && forall i :: 0 <= i < |frames| ==> fate(i) == Sent
    requires was <= wire <= was + frames && (ok ==> wire == was + frames)
    ensures Pushes(m, since, done, ready, fate, was, ok, wire, if ok then frames[|frames| - 1].ts + 1 else since)
  {
    hide Gap, Unreadable, Range, OnWire;
    var batch := Range(m, since, done);
    assert |frames| == |batch|;
    forall i | |was| <= i < |wire| ensures Carries(wire[i], batch[i - |was|]) { assert wire[i] == frames[i - |was|]; }
  }

  /** The log is whole from `since` to `done`, and readable. */
  ghost predicate Whole(m: Master, since: nat, done: nat) {
    forall t: nat :: since <= t <= done ==> InLog(m, t) && OnWire(m.hist[t]).Some?
  }

  /** The frame for the key at `t`. */
  predicate FrameAt(m: Master, t: nat, f: Frame) { f.ts == t && InLog(m, t) && OnWire(m.hist[t]) == Some(f.cmd) }

  /** Over such a stretch the keys are its timestamps. */
  lemma {:induction false} WholeRange(m: Master, since: nat, done: nat)
    requires since <= done + 1 && Whole(m, since, done)
    ensures |Range(m, since, done)| == done + 1 - since
    ensures forall i :: 0 <= i < done + 1 - since ==> Range(m, since, done)[i].ts == since + i
    decreases done + 1 - since
  {
    hide OnWire;
    if since <= done {
      WholeRange(m, since + 1, done);
      assert Range(m, since, done) == [Frame(since, m.hist[since])] + Range(m, since + 1, done);
    }
  }

  /** Everything due goes out: over a whole stretch one frame for each timestamp, and the cursor passes it. */
  ghost predicate CatchesUp(m: Master, since: nat, done: nat, ready: bool, fate: nat -> Fate,
                            was: seq<Frame>, ok: bool, wire: seq<Frame>, cursor: nat)
  {
    since <= done && Whole(m, since, done) && ready && (forall i: nat :: i <= done - since ==> fate(i) == Sent) ==>
      ok && cursor == done + 1 && was <= wire && |wire| == |was| + (done + 1 - since) &&
      forall i :: |was| <= i < |wire| ==> FrameAt(m, since + (i - |was|), wire[i])
  }

  lemma PushCatchesUp(m: Master, since: nat, done: nat, ready: bool, fate: nat -> Fate,
                      was: seq<Frame>, ok: bool, wire: seq<Frame>, cursor: nat)
    requires Pushes(m, since, done, ready, fate, was, ok, wire, cursor)
    ensures CatchesUp(m, since, done, ready, fate, was, ok, wire, cursor)
  {
    hide OnWire, InLog;
    if since <= done && Whole(m, since, done) {
      WholeRange(m, since, done);
      var batch := Range(m, since, done);
      hide Range;
      forall i | |was| <= i < |wire| ensures FrameAt(m, since + (i - |was|), wire[i]) {
        assert Carries(wire[i], batch[i - |was|]);
      }
    }
  }

  /** The sends of one batch, until it is through or one fails. */
  function PushAll(l: Link, fate: nat -> Fate): Link
    requires l.holder.Some? ==> l.holder.value.sent < |l.holder.value.batch|
    decreases if l.holder.Some? then |l.holder.value.batch| - l.holder.value.sent else 0
  {
    if l.holder.None? then l else PushAll(PushSendStep(l, fate(l.holder.value.sent)), fate)
  }

  class SlaveConnection {
    var feedEnabled: bool
    var feedSinceTS: nat
    var ready: bool
    var wire: seq<Frame>

    /** The connection as FeedProtocol sees it between two pushes. */
    ghost function View(): Link
      reads this
    {
      Link(None, feedSinceTS, wire, None, 0, wire)
    }

    constructor ()
      ensures !feedEnabled && !ready && wire == []
    {
      feedEnabled, feedSinceTS, ready, wire := false, 0, false, [];
    }

    method FeedSetEnabled(enabled: bool, since: nat)
      modifies this`feedEnabled, this`feedSinceTS
      ensures feedEnabled == enabled && feedSinceTS == since
    {
      feedEnabled, feedSinceTS := enabled, since;
    }

    /** Not ready is an error; otherwise the network decides. */
    method SendCommand(f: Frame, fate: Fate) returns (ok: bool)
      modifies this`wire
      ensures ok <==> ready && fate == Sent
      ensures wire == if ready && fate != SendFails(false) then old(wire) + [f] else old(wire)
    {
      if !ready { return false; }
      if fate != SendFails(false) { wire := wire + [f]; }
      ok := fate == Sent;
    }

    /** What happens to a send: a connection that is not ready refuses it. */
    ghost function Network(fate: nat -> Fate): nat -> Fate
      reads this
    {
      if ready then fate else (i: nat) => SendFails(false)
    }

    /** Send a batch frame by frame and stop at the first error. */
    method SendBatch(batch: seq<Frame>, fate: nat -> Fate) returns (ok: bool)
      requires batch != []
      modifies this`wire
      ensures PushAll(old(View()).(holder := Some(Push(batch, 0))), Network(fate)) ==
              if ok then View().(cursor := batch[|batch| - 1].ts + 1) else View()
      ensures ok <==> ready && forall i :: 0 <= i < |batch| ==> fate(i) == Sent
      ensures old(wire) <= wire <= old(wire) + batch && (ok ==> wire == old(wire) + batch)
      ensures !ok ==> exists k :: 0 <= k < |batch| && wire == old(wire) + batch[..k + if ready && fate(k) == SendFails(true) then 1 else 0]
    {
      ghost var spec := PushAll(View().(holder := Some(Push(batch, 0))), Network(fate));
      for i := 0 to |batch|
        invariant i < |batch| ==> spec == PushAll(View().(holder := Some(Push(batch, i))), Network(fate))
        invariant i == |batch| ==> spec == View().(cursor := batch[|batch| - 1].ts + 1)
        invariant wire == old(wire) + batch[..i] && (i > 0 ==> ready) && forall k :: 0 <= k < i ==> fate(k) == Sent
      {
        var sent := SendCommand(batch[i], fate(i));
        assert old(wire) + batch[..i] + [batch[i]] == old(wire) + batch[..i + 1];
        if !sent {
          assert 0 <= i < |batch| && wire == old(wire) + batch[..i + if ready && fate(i) == SendFails(true) then 1 else 0];
          return false;
        }
      }
      assert batch[..|batch|] == batch;
      ok := true;
    }

    /**
      FeedSlave, the part under the cursor lock: read the cursor, send what is due, and advance only
      after the last frame. It is PushStart followed by one PushSend per frame.
     */
    method FeedSlave(m: Master, done: nat, fate: nat -> Fate) returns (ok: bool)
      modifies this`feedSinceTS, this`wire, this`feedEnabled
      ensures feedEnabled == old(feedEnabled)
      ensures !feedEnabled ==> View() == old(View())
      ensures feedEnabled ==> View() == PushAll(PushStartStep(m, old(View()), done), Network(fate))
      ensures !feedEnabled ==> ok
      ensures feedEnabled ==> Pushes(m, old(feedSinceTS), done, ready, fate, old(wire), ok, wire, feedSinceTS)
      ensures feedEnabled ==> CatchesUp(m, old(feedSinceTS), done, ready, fate, old(wire), ok, wire, feedSinceTS)
    {
      hide OnWire, CatchesUp, Range, Gap, Unreadable, PushAll, PushSendStep;
      ok := true;
      if !feedEnabled { return; }
      ok := PushDue(m, done, fate);
      PushCatchesUp(m, old(feedSinceTS), done, ready, fate, old(wire), ok, wire, feedSinceTS);
    }

    method PushDue(m: Master, done: nat, fate: nat -> Fate) returns (ok: bool)
      requires feedEnabled
      modifies this`feedSinceTS, this`wire, this`feedEnabled
      ensures feedEnabled && View() == PushAll(PushStartStep(m, old(View()), done), Network(fate))
      ensures Pushes(m, old(feedSinceTS), done, ready, fate, old(wire), ok, wire, feedSinceTS)
    {
      hide OnWire, Range, Pushes;
      ok := true;
      var since := feedSinceTS;
      var batch := Range(m, since, done);
      GapExact(m, since, done);
      ReadableExact(m, since, done);
      hide Gap, Unreadable;
      var continuous := VerifyContinuity(batch);
      if !continuous {
        NothingPushed(m, since, done, ready, fate, wire, false);
        return false;
      }
      var frames := FrameBatch(batch);
      if frames.None? || frames.value == [] {
        ok := frames.Some?;
        NothingPushed(m, since, done, ready, fate, wire, ok);
        return;
      }
      ok := SendBatch(frames.value, fate);
      BatchPushed(m, since, done, ready, fate, old(wire), frames.value, ok, wire);
      if ok { FeedSetEnabled(true, frames.value[|frames.value| - 1].ts + 1); }
    }

    /** CatchUpAndEnableSlaveTS: activate at `resume + 1`, then fill the gap. */
    method CatchUpAndEnable(m: Master, done: nat, resume: nat, fate: nat -> Fate) returns (ok: bool)
      modifies this
      ensures feedEnabled && ready
      ensures View() == PushAll(PushStartStep(m, Link(None, resume + 1, old(wire), None, 0, old(wire)), done), fate)
      ensures Pushes(m, resume + 1, done, true, fate, old(wire), ok, wire, feedSinceTS)
      ensures CatchesUp(m, resume + 1, done, true, fate, old(wire), ok, wire, feedSinceTS)
    {
      hide Pushes, CatchesUp, PushAll, PushStartStep;
      FeedSetEnabled(true, resume + 1);
      ready := true;
      ok := FeedSlave(m, done, fate);
    }
  }

  // ------------------------------------------------------------ the replica's side

  /**
    The master's answer to PSYNC as the replica reads it. A reply too short for its fields is
    taken all the same, and so is an offset that is no number, as 0.
   */
  datatype PsyncReply =
    | FullResyncReply(fields: Option<SyncPoint>)
    | ContinueReply(id: Option<string>)
    | OtherReply

  datatype SyncPoint = SyncPoint(id: string, offset: int, ts: Option<nat>)

  /** What a master with this log answers a replica; the offset plays no part. */
  function ReplyOf(m: Master, r: Replica, offset: int): PsyncReply {
    match HandlePSync(m, r.replId, RequestedTS(r))
    case Continue => ContinueReply(Some(m.id))
    case FullResync => FullResyncReply(Some(SyncPoint(m.id, offset, Some(CurrentTS(m)))))
  }

  class SlaveReconnector {
    var lastReplId: string
    var lastOffset: int
    var lastAppliedTS: nat
    var store: seq<Command>

    /** The replica as FeedProtocol sees it, with the given history variables. */
    ghost function View(base: nat, covered: nat, damaged: bool): Replica
      reads this
    {
      Replica(lastReplId, lastAppliedTS, store, base, covered, damaged)
    }

    constructor ()
      ensures View(0, 0, false) == InitState("").replica && lastOffset == 0
    {
      lastReplId, lastOffset, lastAppliedTS, store := "", 0, 0, [];
    }

    /** The id and timestamp sendPSYNC puts in its request. */
    method PsyncRequest() returns (id: string, ts: nat)
      ensures ts == RequestedTS(View(0, 0, false))
      ensures id == if lastReplId == "" then "?" else lastReplId
    {
      if lastReplId == "" { id, ts := "?", 0; } else { id, ts := lastReplId, lastAppliedTS; }
    }

    /**
      The answer of a master puts the replica exactly where the protocol's connect step does: a
      FULLRESYNC moves the watermark before any data has arrived.
     */
    method PsyncAnswer(reply: PsyncReply) returns (ok: bool, fullResync: bool)
      modifies this`lastReplId, this`lastOffset, this`lastAppliedTS
      ensures forall m: Master, offset: int, b: nat, c: nat, d: bool ::
                reply == ReplyOf(m, old(View(b, c, d)), offset) ==>
                  var r := ConnectStep(State(m, old(View(b, c, d)), None)).replica;
                  View(r.base, r.covered, r.damaged) == r
      ensures (ok <==> !reply.OtherReply?) && (fullResync <==> reply.FullResyncReply?)
      ensures reply.FullResyncReply? && reply.fields.Some? ==>
                lastReplId == reply.fields.value.id && lastOffset == reply.fields.value.offset &&
                lastAppliedTS == if reply.fields.value.ts.Some? then reply.fields.value.ts.value else old(lastAppliedTS)
      ensures reply.ContinueReply? && reply.id.Some? ==>
                lastReplId == reply.id.value && lastOffset == old(lastOffset) && lastAppliedTS == old(lastAppliedTS)
      ensures reply.OtherReply? || (reply.FullResyncReply? && reply.fields.None?) || (reply.ContinueReply? && reply.id.None?) ==>
                lastReplId == old(lastReplId) && lastOffset == old(lastOffset) && lastAppliedTS == old(lastAppliedTS)
    {
      match reply
      case FullResyncReply(fields) =>
        if fields.Some? {
          lastReplId, lastOffset := fields.value.id, fields.value.offset;
          if fields.value.ts.Some? { lastAppliedTS := fields.value.ts.value; }
        }
        ok, fullResync := true, true;
      case ContinueReply(id) =>
        if id.Some? { lastReplId := id.value; }
        ok, fullResync := true, false;
      case OtherReply => ok, fullResync := false, false;
    }

    /**
      The REPLLOG branch of readCommandLoop. A frame is either refused, which ends the
      connection and changes nothing, or handled as ApplyFrame says; every handled frame moves
      the offset by the size of its serialisation, a skipped one included.
     */
    method OnFrame(args: seq<R.Arg>, outcome: Outcome) returns (keep: bool)
      modifies this`lastOffset, this`lastAppliedTS, this`store
      ensures C.ParseFrame(args).None? ==> !keep
      ensures C.ParseFrame(args).Some? ==>
                var f := Frame(C.ParseFrame(args).value.0, C.ParseFrame(args).value.1);
                forall b: nat, c: nat, d: bool ::
                  var step := ApplyFrame(old(View(b, c, d)), f, outcome);
                  keep == step.Some? &&
                  (keep ==> View(b, step.value.covered, step.value.damaged) == step.value)
      ensures keep <==>
                C.IsFrame(args) && (old(lastAppliedTS) > 0 ==> C.FrameTS(args) == old(lastAppliedTS) + 1) &&
                (IsNoop(C.FrameCommand(args)) || !outcome.ApplyFails?)
      ensures keep && (IsNoop(C.FrameCommand(args)) || outcome.Applied?) ==> lastAppliedTS == C.FrameTS(args)
      ensures keep && !IsNoop(C.FrameCommand(args)) && outcome.Applied? ==> store == old(store) + [C.FrameCommand(args)]
      ensures keep && IsNoop(C.FrameCommand(args)) ==> store == old(store)
      ensures keep && !IsNoop(C.FrameCommand(args)) && outcome.KeyNotFound? ==> store == old(store) && lastAppliedTS == old(lastAppliedTS)
      ensures keep ==> lastOffset == old(lastOffset) + |C.Serialize(C.Texts(args))|
      ensures !keep ==> lastOffset == old(lastOffset) && forall b: nat, c: nat, d: bool :: View(b, c, d) == old(View(b, c, d))
    {
      C.FrameExact(args);
      var parsed := C.ParseFrame(args);
      if parsed.None? { return false; }
      var (ts, cmd) := parsed.value;
      if lastAppliedTS > 0 && ts != lastAppliedTS + 1 { return false; }
      var size := |C.Serialize(C.Texts(args))|;
      if IsNoop(cmd) {
        lastAppliedTS := ts;
        lastOffset := lastOffset + size;
        return true;
      }
      match outcome
      case KeyNotFound =>
        lastOffset := lastOffset + size;
        keep := true;
      case ApplyFails => keep := false;
      case Applied =>
        store := store + [cmd];
        lastAppliedTS := ts;
        lastOffset := lastOffset + size;
        keep := true;
    }
  }
}
