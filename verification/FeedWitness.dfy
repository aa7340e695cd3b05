/** Runs in which the feed does not keep a promise. */
module FeedWitness {
  import opened Basics
  import opened FeedProtocol
  import opened FeedSafety
  import C = FeedCodec

  const A: Command := [[83, 69, 84], [97]]
  const B: Command := [[83, 69, 84], [98]]

  /** The run `xs` leads from `s` to `s'`. */
  ghost predicate Leads(s: State, xs: seq<Event>, s': State) {
    IsRun(s, xs) && Run(s, xs) == s'
  }

  lemma {:induction false} Extend(s: State, xs: seq<Event>, mid: State, e: Event, s': State)
    requires Leads(s, xs, mid) && Enabled(mid, e) && Next(mid, e) == s'
    ensures Leads(s, xs + [e], s')
    decreases |xs|
  {
    if xs == [] {
      assert IsRun(Next(s, e), [e][1..]);
    } else {
      assert (xs + [e])[0] == xs[0] && (xs + [e])[1..] == xs[1..] + [e];
      Extend(Next(s, xs[0]), xs[1..], mid, e, s');
    }
  }

  const FRESH: Replica := Replica("m", 0, [], 0, 0, false)
  const OPEN: Link := Link(None, 1, [], None, 1, [])
  const BATCH: seq<Frame> := [Frame(1, A), Frame(2, B)]
  const LOGGED: Master := Master("m", map[1 := A, 2 := B], 0, 3, {}, 2)

  /** A replica of a fresh master, with two commands logged after it connected. */
  lemma FreshReplica() returns (xs: seq<Event>)
    ensures Leads(InitState("m"), xs, State(LOGGED, FRESH, Some(OPEN)))
  {
    var s := InitState("m");
    var m1 := Master("m", map[], 0, 2, {1}, 0);
    var m2 := Master("m", map[1 := A], 0, 2, {}, 1);
    var m3 := Master("m", map[1 := A], 0, 3, {2}, 1);
    var up := Some(OPEN);
    Extend(s, [], s, Connect, State(s.master, FRESH, Some(OPEN.(rdb := Some([])))));
    Extend(s, [Connect], State(s.master, FRESH, Some(OPEN.(rdb := Some([])))), LoadRdb, State(s.master, FRESH, up));
    xs := [Connect] + [LoadRdb];
    Extend(s, xs, State(s.master, FRESH, up), Begin, State(m1, FRESH, up));
    xs := xs + [Begin];
    Extend(s, xs, State(m1, FRESH, up), Commit(1, A), State(m1.(hist := m2.hist), FRESH, up));
    xs := xs + [Commit(1, A)];
    Extend(s, xs, State(m1.(hist := m2.hist), FRESH, up), End(1), State(m2, FRESH, up));
    xs := xs + [End(1)];
    Extend(s, xs, State(m2, FRESH, up), Begin, State(m3, FRESH, up));
    xs := xs + [Begin];
    Extend(s, xs, State(m3, FRESH, up), Commit(2, B), State(m3.(hist := LOGGED.hist), FRESH, up));
    xs := xs + [Commit(2, B)];
    Extend(s, xs, State(m3.(hist := LOGGED.hist), FRESH, up), End(2), State(LOGGED, FRESH, up));
    xs := xs + [End(2)];
  }

  lemma LoggedFacts()
    ensures Range(LOGGED, 1, 2) == BATCH && Replay(LOGGED.hist, 2) == [A, B]
    ensures CurrentTS(LOGGED) == 2 && StartTS(LOGGED) == 1
  {
    assert Range(LOGGED, 3, 2) == [] && Range(LOGGED, 2, 2) == [Frame(2, B)];
    assert Replay(LOGGED.hist, 0) == [] && Replay(LOGGED.hist, 1) == [A];
  }

  lemma BothFramed()
    ensures Framed(BATCH) == Some(BATCH)
  {
    hide OnWire;
    WireExact(A);
    WireExact(B);
    assert C.Survives(A) && C.Survives(B);
    assert forall i :: 0 <= i < |BATCH| ==> OnWire(BATCH[i].cmd) == Some(BATCH[i].cmd);
    assert Framed(BATCH).value == BATCH;
  }

  const BOTH_SENT: Link := Link(None, 3, BATCH, None, 1, BATCH)

  lemma BothSent() returns (xs: seq<Event>)
    ensures Leads(InitState("m"), xs, State(LOGGED, FRESH, Some(BOTH_SENT)))
  {
    LoggedFacts();
    xs := FreshReplica();
    hide OnWire, Range;
    var s := InitState("m");
    var l1 := OPEN.(holder := Some(Push(BATCH, 0)));
    var l2 := Link(None, 1, BATCH[..1], Some(Push(BATCH, 1)), 1, BATCH[..1]);
    assert BATCH[..1] == [BATCH[0]] && BATCH[..1] + [BATCH[1]] == BATCH && Continuous(BATCH);
    BothFramed();
    assert PushStartStep(LOGGED, OPEN, 2) == l1;
    assert PushSendStep(l1, Sent) == l2 && PushSendStep(l2, Sent) == BOTH_SENT;
    Extend(s, xs, State(LOGGED, FRESH, Some(OPEN)), PushStart(2), State(LOGGED, FRESH, Some(l1)));
    xs := xs + [PushStart(2)];
    Extend(s, xs, State(LOGGED, FRESH, Some(l1)), PushSend(Sent), State(LOGGED, FRESH, Some(l2)));
    xs := xs + [PushSend(Sent)];
    Extend(s, xs, State(LOGGED, FRESH, Some(l2)), PushSend(Sent), State(LOGGED, FRESH, Some(BOTH_SENT)));
    xs := xs + [PushSend(Sent)];
  }

  /** Skipping the very first frame loses it: the next one is accepted over the hole. */
  lemma SkipAtZeroLosesACommand() returns (xs: seq<Event>, s': State)
    ensures Leads(InitState("m"), xs, s')
    ensures s'.replica.applied == 2 && s'.replica.store == [B] && Replay(s'.master.hist, 2) == [A, B]
  {
    LoggedFacts();
    xs := BothSent();
    var s := InitState("m");
    var skipped := State(LOGGED, FRESH.(damaged := true), Some(BOTH_SENT.(wire := BATCH[1..])));
    s' := State(LOGGED, Replica("m", 2, [B], 0, 2, true), Some(BOTH_SENT.(wire := [])));
    Extend(s, xs, State(LOGGED, FRESH, Some(BOTH_SENT)), Receive(KeyNotFound), skipped);
    xs := xs + [Receive(KeyNotFound)];
    Extend(s, xs, skipped, Receive(Applied), s');
    xs := xs + [Receive(Applied)];
  }

  /**
    A full resync interrupted before its load: the replica keeps an empty store, claims
    timestamp 2, and the master will answer its next PSYNC with CONTINUE.
   */
  lemma InterruptedResyncDiverges() returns (xs: seq<Event>, s': State)
    ensures Leads(InitState("m"), xs, s')
    ensures s'.replica.applied == 2 && s'.replica.store == [] && Replay(s'.master.hist, 2) == [A, B]
    ensures HandlePSync(s'.master, s'.replica.replId, s'.replica.applied) == Continue && !Faithful(s')
  {
    LoggedFacts();
    xs := FreshReplica();
    hide OnWire;
    InterruptedResyncExact(State(LOGGED, FRESH, None), 0);
    assert !NoData(LOGGED.hist, 0, 3) by { assert 1 in LOGGED.hist && !IsNoop(LOGGED.hist[1]); }
    var s := InitState("m");
    var promised := Replica("m", 2, [], 2, 2, false);
    var l := Link(Some([A, B]), 3, [], None, 3, []);
    s' := State(LOGGED, promised.(damaged := true), None);
    Extend(s, xs, State(LOGGED, FRESH, Some(OPEN)), Disconnect, State(LOGGED, FRESH, None));
    xs := xs + [Disconnect];
    Extend(s, xs, State(LOGGED, FRESH, None), Connect, State(LOGGED, promised, Some(l)));
    xs := xs + [Connect];
    Extend(s, xs, State(LOGGED, promised, Some(l)), Disconnect, s');
    xs := xs + [Disconnect];
  }

  const CUT_CMD: Command := [[83, 69, 84], [107], [97, CR, LF, 98]]
  const SEEN_CMD: Command := [[83, 69, 84], [107], [97]]

  lemma CutOnWire()
    ensures OnWire(CUT_CMD) == Some(SEEN_CMD) && !IsNoop(SEEN_CMD) && !IsNoop(CUT_CMD) && CUT_CMD != SEEN_CMD
  {
    var init: Command := [[83, 69, 84], [107]];
    assert [97] + CRLF + [98] == [97, CR, LF, 98];
    assert init + [[97] + CRLF + [98]] == CUT_CMD && init + [[97]] == SEEN_CMD;
    hide OnWire, C.ParseLogValue, C.Serialize;
    assert OnWire(CUT_CMD) == Some(SEEN_CMD) by { Wired(init); }
  }

  lemma Wired(init: Command)
    requires init == [[83, 69, 84], [107]]
    ensures OnWire(init + [[97] + CRLF + [98]]) == Some(init + [[97]])
  {
    hide C.ParseLogValue, C.Serialize;
    C.CrlfArgumentIsCut(init, [97], [98]);
  }

  const CUT_LOG: Master := Master("m", map[1 := CUT_CMD], 0, 2, {}, 1)
  const CUT_SENT: Link := Link(None, 2, [Frame(1, SEEN_CMD)], None, 1, [Frame(1, SEEN_CMD)])

  /** A replica of a fresh master, with one command logged after it connected. */
  lemma OneLogged() returns (xs: seq<Event>)
    ensures Leads(InitState("m"), xs, State(CUT_LOG, FRESH, Some(OPEN)))
  {
    var s := InitState("m");
    var m1 := Master("m", map[], 0, 2, {1}, 0);
    var up := Some(OPEN);
    var promised := State(s.master, FRESH, Some(OPEN.(rdb := Some([]))));
    Extend(s, [], s, Connect, promised);
    xs := [Connect];
    Extend(s, xs, promised, LoadRdb, State(s.master, FRESH, up));
    xs := xs + [LoadRdb];
    Extend(s, xs, State(s.master, FRESH, up), Begin, State(m1, FRESH, up));
    xs := xs + [Begin];
    Extend(s, xs, State(m1, FRESH, up), Commit(1, CUT_CMD), State(m1.(hist := CUT_LOG.hist), FRESH, up));
    xs := xs + [Commit(1, CUT_CMD)];
    Extend(s, xs, State(m1.(hist := CUT_LOG.hist), FRESH, up), End(1), State(CUT_LOG, FRESH, up));
    xs := xs + [End(1)];
  }

  lemma CutFramed()
    ensures Range(CUT_LOG, 1, 1) == [Frame(1, CUT_CMD)] && Framed([Frame(1, CUT_CMD)]) == Some([Frame(1, SEEN_CMD)])
  {
    assert Range(CUT_LOG, 2, 1) == [];
    hide OnWire;
    CutOnWire();
    assert Framed([Frame(1, CUT_CMD)]).value == [Frame(1, SEEN_CMD)];
  }

  /**
    A command with CR LF in an argument goes through without any error and arrives cut: the
    replica stands, undamaged, at the master's watermark with another value.
   */
  lemma CrlfReachesTheReplica() returns (xs: seq<Event>, s': State)
    ensures Leads(InitState("m"), xs, s') && Standing(s')
    ensures s'.replica.store == [SEEN_CMD] && Replay(s'.master.hist, s'.replica.applied) == [CUT_CMD] && !Faithful(s')
  {
    xs := OneLogged();
    CutFramed();
    CutOnWire();
    hide OnWire, Range, Framed;
    var s := InitState("m");
    var l1 := OPEN.(holder := Some(Push([Frame(1, SEEN_CMD)], 0)));
    s' := State(CUT_LOG, Replica("m", 1, [SEEN_CMD], 0, 1, false), Some(CUT_SENT.(wire := [])));
    assert PushStartStep(CUT_LOG, OPEN, 1) == l1 && PushSendStep(l1, Sent) == CUT_SENT;
    Extend(s, xs, State(CUT_LOG, FRESH, Some(OPEN)), PushStart(1), State(CUT_LOG, FRESH, Some(l1)));
    xs := xs + [PushStart(1)];
    Extend(s, xs, State(CUT_LOG, FRESH, Some(l1)), PushSend(Sent), State(CUT_LOG, FRESH, Some(CUT_SENT)));
    xs := xs + [PushSend(Sent)];
    assert CUT_SENT.wire[1..] == [] && [] + [SEEN_CMD] == [SEEN_CMD];
    Extend(s, xs, State(CUT_LOG, FRESH, Some(CUT_SENT)), Receive(Applied), s');
    xs := xs + [Receive(Applied)];
    assert Replay(CUT_LOG.hist, 0) == [] && Replay(CUT_LOG.hist, 1) == [CUT_CMD];
  }
}
