/**
  The log-key replication feed as a state machine: a master that commits timestamped
  commands and pushes them over one connection, and a replica that checks continuity,
  applies, loses its connection and comes back. A state holds everything both sides
  remember; an event is one atomic step of either side or of the network.
 */
module FeedProtocol {
  import opened Basics
  import C = FeedCodec

  // ---------------------------------------------------------------- the master

  /** A log key with its command, or one message of the feed: REPLLOG ts cmd. */
  datatype Frame = Frame(ts: nat, cmd: Command)

  /**
    `hist` is every log key ever written and `trim` the bound below which keys have been
    removed; `next`, `pending` and `done` are the timestamp source.
   */
  datatype Master = Master(id: string, hist: map<nat, Command>, trim: nat,
                           next: nat, pending: set<nat>, done: nat)

  predicate InLog(m: Master, ts: nat) {
    ts in m.hist && m.trim <= ts
  }

  /** The completion watermark after an attempt ends: the longest finished prefix. */
  function Advance(done: nat, next: nat, pending: set<nat>): nat
    decreases next - done
  {
    if done + 1 < next && done + 1 !in pending then Advance(done + 1, next, pending) else done
  }

  /** The log keys in [since, upto], in timestamp order. */
  function Range(m: Master, since: nat, upto: nat): (batch: seq<Frame>)
    ensures forall i :: 0 <= i < |batch| ==>
              since <= batch[i].ts <= upto && InLog(m, batch[i].ts) && m.hist[batch[i].ts] == batch[i].cmd
    decreases upto + 1 - since
  {
    if upto < since then []
    else (if InLog(m, since) then [Frame(since, m.hist[since])] else []) + Range(m, since + 1, upto)
  }

  predicate Ascending(batch: seq<Frame>) { forall i, j :: 0 <= i < j < |batch| ==> batch[i].ts < batch[j].ts }

  predicate Has(batch: seq<Frame>, t: nat) { exists i :: 0 <= i < |batch| && batch[i].ts == t }

  /** The log keys in [since, upto]: all of them, each once, in order, with their commands. */
  ghost predicate IsLogOf(m: Master, since: nat, upto: nat, batch: seq<Frame>) {
    && Ascending(batch)
    && (forall i :: 0 <= i < |batch| ==> Holds(m, since, upto, batch[i]))
    && (forall t: nat :: Has(batch, t) <==> since <= t <= upto && InLog(m, t))
  }

  predicate Holds(m: Master, since: nat, upto: nat, f: Frame) {
    since <= f.ts <= upto && InLog(m, f.ts) && m.hist[f.ts] == f.cmd
  }

  lemma OneMoreKey(f: Frame, rest: seq<Frame>)
    requires Ascending(rest) && forall i :: 0 <= i < |rest| ==> f.ts < rest[i].ts
    ensures Ascending([f] + rest)
    ensures forall t: nat :: Has([f] + rest, t) <==> t == f.ts || Has(rest, t)
  {
    var batch := [f] + rest;
    forall t: nat ensures Has(batch, t) <==> t == f.ts || Has(rest, t) {
      if t == f.ts { assert batch[0].ts == t; }
      if Has(rest, t) {
        var i :| 0 <= i < |rest| && rest[i].ts == t;
        assert batch[i + 1].ts == t;
      }
      if Has(batch, t) && t != f.ts {
        var i :| 0 <= i < |batch| && batch[i].ts == t;
        assert rest[i - 1].ts == t;
      }
    }
  }

  lemma {:induction false} RangeExact(m: Master, since: nat, upto: nat)
    ensures IsLogOf(m, since, upto, Range(m, since, upto))
    decreases upto + 1 - since
  {
    hide Ascending, Has;
    if since <= upto {
      var rest := Range(m, since + 1, upto);
      RangeExact(m, since + 1, upto);
      if InLog(m, since) { OneMoreKey(Frame(since, m.hist[since]), rest); } else { assert Range(m, since, upto) == rest; }
    } else {
      NoKeys();
    }
  }

  lemma NoKeys()
    ensures Ascending([]) && forall t: nat :: !Has([], t)
  {}

  /** The largest log key at or below `n`, or 0. */
  function LastKey(m: Master, n: nat): (ts: nat)
    ensures ts <= n
    ensures ts != 0 ==> InLog(m, ts)
    ensures forall t :: t in m.hist && ts < t <= n ==> t < m.trim
  {
    if n == 0 then 0 else if InLog(m, n) then n else LastKey(m, n - 1)
  }

  /** The smallest log key in [from, next), or 0. */
  function FirstKey(m: Master, from: nat): (ts: nat)
    ensures ts != 0 ==> from <= ts && InLog(m, ts)
    ensures forall t: nat :: InLog(m, t) && from <= t < m.next && 0 < t ==> 0 < ts <= t
    decreases m.next - from
  {
    if m.next <= from then 0 else if from != 0 && InLog(m, from) then from else FirstKey(m, from + 1)
  }

  function CurrentTS(m: Master): nat {
    if m.next == 0 then 0 else LastKey(m, m.next - 1)
  }

  function StartTS(m: Master): nat { FirstKey(m, 1) }

  /** The timestamps of a batch follow one another without a gap. */
  predicate Continuous(batch: seq<Frame>) {
    forall i :: 1 <= i < |batch| ==> batch[i].ts == batch[i - 1].ts + 1
  }

  /** What the log parser makes of a logged command's value; None is an error. */
  function OnWire(cmd: Command): Option<Command> { C.ParseLogValue(C.Serialize(cmd)) }

  /** The frames of a batch: every value is parsed again, and one that does not parse stops them all. */
  function Framed(batch: seq<Frame>): Option<seq<Frame>> {
    if forall i :: 0 <= i < |batch| ==> OnWire(batch[i].cmd).Some? then
      Some(seq(|batch|, i requires 0 <= i < |batch| => Frame(batch[i].ts, OnWire(batch[i].cmd).value)))
    else None
  }

  datatype Sync = Continue | FullResync

  /** The master's answer to PSYNC. */
  function HandlePSync(m: Master, replId: string, ts: nat): Sync {
    if ts == 0 || replId != m.id then FullResync
    else if StartTS(m) <= ts <= CurrentTS(m) then Continue
    else FullResync
  }

  /**
    CONTINUE exactly for a replica of this history whose timestamp lies between two keys of the log,
    itself included.
   */
  lemma ContinueExactly(m: Master, replId: string, ts: nat)
    ensures HandlePSync(m, replId, ts) == Continue <==>
            replId == m.id && 0 < ts &&
            (exists t: nat :: InLog(m, t) && 0 < t <= ts && t < m.next) && (exists t: nat :: InLog(m, t) && ts <= t < m.next)
  {
    var first, last := StartTS(m), CurrentTS(m);
    if first != 0 && first <= ts { assert InLog(m, first); }
    if ts <= last && 0 < ts { assert InLog(m, last); }
  }

  // -------------------------------------------------------------- data semantics

  predicate IsData(hist: map<nat, Command>, ts: nat) {
    ts in hist && !IsNoop(hist[ts])
  }

  /**
    The data commands logged at 1..upto, in order. A store is represented by the commands
    that produced it, so that equality means nothing lost, doubled or reordered.
   */
  function Replay(hist: map<nat, Command>, upto: nat): seq<Command> {
    if upto == 0 then []
    else Replay(hist, upto - 1) + (if IsData(hist, upto) then [hist[upto]] else [])
  }

  /** No data command is logged strictly after `lo` and strictly before `hi`. */
  predicate NoData(hist: map<nat, Command>, lo: nat, hi: nat) {
    forall t :: t in hist && lo < t < hi ==> IsNoop(hist[t])
  }

  /** The command a replica gets to see for a log key, unless it sees none or a tombstone. */
  function Shown(hist: map<nat, Command>, ts: nat): seq<Command> {
    if ts in hist && OnWire(hist[ts]).Some? && !IsNoop(OnWire(hist[ts]).value) then [OnWire(hist[ts]).value] else []
  }

  /** The commands a replica gets to see for the keys after `lo` and up to `hi`, in order. */
  function Delivered(hist: map<nat, Command>, lo: nat, hi: nat): seq<Command> {
    if hi <= lo then [] else Delivered(hist, lo, hi - 1) + Shown(hist, hi)
  }

  // ------------------------------------------------------------------ both sides

  /** A caller inside FeedSlave: it holds the cursor lock and has sent `sent` frames. */
  datatype Push = Push(batch: seq<Frame>, sent: nat)

  /**
    One connection. `rdb` is the snapshot the replica has been promised but has not loaded;
    `wire` holds frames in flight. `start` and `sent` record the activation cursor and every
    frame put on the connection.
   */
  datatype Link = Link(rdb: Option<seq<Command>>, cursor: nat, wire: seq<Frame>,
                       holder: Option<Push>, start: nat, sent: seq<Frame>)

  /**
    `applied` is lastAppliedTS. `base` records the log point of the last snapshot, `covered`
    the log point the store stands for, and `damaged` that something the gap check cannot see
    has happened since the last full resync was answered.
   */
  datatype Replica = Replica(replId: string, applied: nat, store: seq<Command>,
                             base: nat, covered: nat, damaged: bool)

  datatype State = State(master: Master, replica: Replica, link: Option<Link>)

  datatype Fate = Sent | SendFails(delivered: bool)
  datatype Outcome = Applied | KeyNotFound | ApplyFails

  datatype Event =
    | Begin
    | Commit(ts: nat, cmd: Command)
    | End(ts: nat)
    | Trim(bound: nat)
    | Restart(next: nat)
    | NewMaster(id: string)
    | Connect
    | LoadRdb
    | LoadRdbFails(junk: seq<Command>)
    | PushStart(upto: nat)
    | PushSend(fate: Fate)
    | Receive(outcome: Outcome)
    | Disconnect

  const INIT_MASTER_NEXT: nat := 1

  function InitState(id: string): State {
    State(Master(id, map[], 0, INIT_MASTER_NEXT, {}, 0), Replica("", 0, [], 0, 0, false), None)
  }

  /** The slave's continuity check. */
  predicate GapCheckPasses(prev: nat, ts: nat) {
    prev > 0 ==> ts == prev + 1
  }

  /** The request a replica sends: without a remembered id it asks for a full resync. */
  function RequestedTS(r: Replica): nat {
    if r.replId == "" then 0 else r.applied
  }

  predicate Enabled(s: State, e: Event) {
    match e
    case Begin => true
    case Commit(ts, cmd) => ts in s.master.pending && ts !in s.master.hist && cmd != []
    case End(ts) => ts in s.master.pending
    // only keys of finished commits are removed
    case Trim(bound) => bound <= s.master.next && forall p :: p in s.master.pending ==> bound <= p
    // the timestamp source restarts above every version in the database
    case Restart(next) => 1 <= next && s.master.trim <= next && forall t :: t in s.master.hist ==> t < next
    // a replication id is never issued twice
    case NewMaster(id) => id != "" && id != s.replica.replId
    // the snapshot lock keeps commits out while a full resync reads its timestamp and data
    case Connect =>
      s.link.None? &&
      (HandlePSync(s.master, s.replica.replId, RequestedTS(s.replica)).FullResync? ==> s.master.pending == {})
    case LoadRdb => s.link.Some? && s.link.value.rdb.Some?
    case LoadRdbFails(_) => s.link.Some? && s.link.value.rdb.Some?
    case PushStart(upto) => s.link.Some? && s.link.value.holder.None? && upto <= s.master.done
    case PushSend(_) => s.link.Some? && s.link.value.holder.Some? &&
                        s.link.value.holder.value.sent < |s.link.value.holder.value.batch|
    case Receive(_) => s.link.Some? && s.link.value.rdb.None? && s.link.value.wire != []
    case Disconnect => s.link.Some?
  }

  /** The connection is gone; a promised snapshot that was not loaded leaves its timestamp behind. */
  function Drop(s: State): State {
    var interrupted := s.link.Some? && s.link.value.rdb.Some?;
    s.(link := None, replica := s.replica.(damaged := s.replica.damaged || interrupted))
  }

  function ConnectStep(s: State): State {
    var m, r := s.master, s.replica;
    if HandlePSync(m, r.replId, RequestedTS(r)).Continue? then
      s.(link := Some(Link(None, r.applied + 1, [], None, r.applied + 1, [])))
    else
      var ts := CurrentTS(m);
      var covered := if ts > 0 || m.next == 0 then ts else m.next - 1;
      var snapshot := Replay(m.hist, if m.next == 0 then 0 else m.next - 1);
      State(m, r.(replId := m.id, applied := ts, base := covered, covered := covered, damaged := false),
            Some(Link(Some(snapshot), ts + 1, [], None, ts + 1, [])))
  }

  function PushStartStep(m: Master, l: Link, upto: nat): Link {
    var batch := Range(m, l.cursor, upto);
    if batch == [] || !Continuous(batch) || Framed(batch).None? then l
    else l.(holder := Some(Push(Framed(batch).value, 0)))
  }

  /** One SendCommand; the cursor moves only after the whole batch went out. */
  function PushSendStep(l: Link, fate: Fate): Link
    requires l.holder.Some? && l.holder.value.sent < |l.holder.value.batch|
  {
    var p := l.holder.value;
    var f := p.batch[p.sent];
    match fate
    case Sent =>
      var out := l.(wire := l.wire + [f], sent := l.sent + [f]);
      if p.sent + 1 == |p.batch| then out.(cursor := f.ts + 1, holder := None)
      else out.(holder := Some(Push(p.batch, p.sent + 1)))
    case SendFails(delivered) =>
      if delivered then l.(wire := l.wire + [f], sent := l.sent + [f], holder := None)
      else l.(holder := None)
  }

  /** The replica's handling of one frame; None means it drops the connection. */
  function ApplyFrame(r: Replica, f: Frame, outcome: Outcome): Option<Replica> {
    if !GapCheckPasses(r.applied, f.ts) then None
    else if IsNoop(f.cmd) then Some(r.(applied := f.ts, covered := f.ts))
    else match outcome
      case Applied => Some(r.(store := r.store + [f.cmd], applied := f.ts, covered := f.ts))
      case KeyNotFound => Some(r.(damaged := r.damaged || r.applied == 0))
      case ApplyFails => None
  }

  function ReceiveStep(s: State, outcome: Outcome): State
    requires s.link.Some? && s.link.value.wire != []
  {
    var l := s.link.value;
    match ApplyFrame(s.replica, l.wire[0], outcome)
    case None => Drop(s)
    case Some(r) => s.(replica := r, link := Some(l.(wire := l.wire[1..])))
  }

  function TrimStep(s: State, bound: nat): State {
    var m, r := s.master, s.replica;
    // at watermark 0 the gap check is off, so removing an unsent data key goes unnoticed
    var lost := s.link.Some? && r.applied == 0 && !NoData(m.hist, r.covered, bound);
    if bound <= m.trim then s
    else s.(master := m.(trim := bound), replica := r.(damaged := r.damaged || lost))
  }

  function Next(s: State, e: Event): State
    requires Enabled(s, e)
  {
    var m := s.master;
    match e
    case Begin => s.(master := m.(next := m.next + 1, pending := m.pending + {m.next}))
    case Commit(ts, cmd) => s.(master := m.(hist := m.hist[ts := cmd]))
    case End(ts) =>
      s.(master := m.(pending := m.pending - {ts}, done := Advance(m.done, m.next, m.pending - {ts})))
    case Trim(bound) => TrimStep(s, bound)
    case Restart(next) => Drop(s.(master := m.(next := next, pending := {}, done := 0)))
    case NewMaster(id) => Drop(s.(master := Master(id, map[], 0, INIT_MASTER_NEXT, {}, 0)))
    case Connect => ConnectStep(s)
    case LoadRdb =>
      var l := s.link.value;
      s.(replica := s.replica.(store := l.rdb.value), link := Some(l.(rdb := None)))
    case LoadRdbFails(junk) => Drop(s.(replica := s.replica.(store := junk)))
    case PushStart(upto) => s.(link := Some(PushStartStep(m, s.link.value, upto)))
    case PushSend(fate) => s.(link := Some(PushSendStep(s.link.value, fate)))
    case Receive(outcome) => ReceiveStep(s, outcome)
    case Disconnect => Drop(s)
  }

  ghost predicate IsRun(s: State, events: seq<Event>)
    decreases |events|
  {
    events == [] || (Enabled(s, events[0]) && IsRun(Next(s, events[0]), events[1..]))
  }

  ghost function Run(s: State, events: seq<Event>): State
    requires IsRun(s, events)
    decreases |events|
  {
    if events == [] then s else Run(Next(s, events[0]), events[1..])
  }
}
