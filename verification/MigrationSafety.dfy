/** What a slot migration keeps over every run with failures, crashes and recoveries. */
module MigrationSafety {
  import opened Basics
  import opened Migration
  import MigrationFence

  /** Phase 2 of a moving migration is owed: recovery will carry it out. */
  predicate CommitOwed(s: State) {
    Late(s) && !CopyOnly(s)
  }

  /** A client has deleted the key from the target since it was sent. */
  predicate Dropped(t: Trace, k: Key) { k in t.over && t.over[k].None? }

  /**
    No key the slot held when the migration began is lost, whatever fails, crashes, recovers or is
    written past the fence, unless it expires or a client deletes it: the node that owns the slot
    holds it, or the journal still owes a commit and the target does.
   */
  lemma KeysAreKept(s0: State, es: seq<Event>)
    requires Initial(s0) && IsRun(s0, es)
    ensures var s := Run(s0, es);
            var kept := s.trace.orig.Keys - s.trace.gone;
            (forall k :: k in kept ==> k in s.src || k in s.dst || Dropped(s.trace, k)) &&
            (s.owner == Target || CommitOwed(s) ==> forall k :: k in kept ==> (k in s.dst <==> !Dropped(s.trace, k))) &&
            (s.owner == Source && !CommitOwed(s) ==> kept <= s.src.Keys)
  {
    InitialInv(s0);
    RunInv(s0, es);
    KeysAreKeptAt(Run(s0, es));
  }

  lemma KeysAreKeptAt(s: State)
    requires Inv(s)
    ensures var kept := s.trace.orig.Keys - s.trace.gone;
            (forall k :: k in kept ==> k in s.src || k in s.dst || Dropped(s.trace, k)) &&
            (s.owner == Target || CommitOwed(s) ==> forall k :: k in kept ==> (k in s.dst <==> !Dropped(s.trace, k))) &&
            (s.owner == Source && !CommitOwed(s) ==> kept <= s.src.Keys)
  {
    hide WorkInv, OwnerInv, SourceIs, TouchInv;
    var kept := s.trace.orig.Keys - s.trace.gone;
    if PastCopy(s) {
      forall k | k in kept ensures k in s.dst <==> !Dropped(s.trace, k) {
        assert k in kept - {};
        assert Get(s.dst, k) == Expected(s.trace, k);
      }
    }
  }

  /** What was sent stands on the target: no client has changed it there since, nor was another value found there. */
  predicate Arrives(t: Trace, k: Key)
    requires k in t.sent
  {
    if k in t.over then t.over[k] == Some(t.sent[k]) else k !in t.found || t.found[k] == t.sent[k]
  }

  /**
    Once the slot has changed hands, or the change is owed, every key that has not left the source has
    been sent, and the target holds exactly what the trace says: the value sent if and only if it
    arrives. A key no client has touched since the listing was sent with the value it had then, and has
    it on the target exactly when the target did not already hold another one.
   */
  lemma ValuesExact(s0: State, es: seq<Event>, k: Key)
    requires Initial(s0) && IsRun(s0, es) && (Run(s0, es).owner == Target || CommitOwed(Run(s0, es)))
    ensures var s := Run(s0, es);
            var t := s.trace;
            t.orig.Keys - t.gone <= t.sent.Keys && Get(s.dst, k) == Expected(t, k) &&
            (k in t.sent ==> (Get(s.dst, k) == Some(t.sent[k]) <==> Arrives(t, k))) &&
            (k in t.sent && k !in Touched(t) ==>
              Get(t.orig, k) == Some(t.sent[k]) && k in s.dst &&
              (s.dst[k] == t.orig[k] <==> k !in t.prior || t.prior[k] == t.orig[k]))
  {
    InitialInv(s0);
    RunInv(s0, es);
    ValuesExactAt(Run(s0, es), k);
  }

  lemma ValuesExactAt(s: State, k: Key)
    requires Inv(s) && (s.owner == Target || CommitOwed(s))
    ensures var t := s.trace;
            t.orig.Keys - t.gone <= t.sent.Keys && Get(s.dst, k) == Expected(t, k) &&
            (k in t.sent ==> (Get(s.dst, k) == Some(t.sent[k]) <==> Arrives(t, k))) &&
            (k in t.sent && k !in Touched(t) ==>
              Get(t.orig, k) == Some(t.sent[k]) && k in s.dst &&
              (s.dst[k] == t.orig[k] <==> k !in t.prior || t.prior[k] == t.orig[k]))
  {
    hide WorkInv, OwnerInv, SourceIs;
    var t := s.trace;
    assert PastCopy(s);
    assert t.orig.Keys - t.gone - {} == t.orig.Keys - t.gone;
    assert Get(s.dst, k) == Expected(t, k);
    if k !in Touched(t) { assert Untouched(t, k); }
  }

  /** A step of a migration that only copies takes nothing from the source; expiry and clients alone do. */
  lemma CopyKeepsSource(s: State, e: Event)
    requires Inv(s) && Enabled(s, e) && CopyOnly(s) && !e.Expire?
    ensures !(e.Write? && e.at == Source) ==> Next(s, e).src == s.src
    ensures !(e.Write? && e.value.None?) ==> s.src.Keys <= Next(s, e).src.Keys
  {
    hide OwnerInv, PastCopy, Lists, Holds, Keys, NoRepeats, SourceIs, TargetIs, TouchInv;
    assert !e.DeleteKey?;
  }

  /**
    Phase 2 deletes the very value the target was sent exactly when no client has written another one
    on the source since the migration read the key. Under the fence only RESTORE and writes that meet no
    gate can have done so: a key they have not written is deleted with the value it was listed with.
   */
  lemma DeletesOnlyCopies(s: State)
    requires Inv(s) && Enabled(s, DeleteKey) && s.work.todo[0] in s.src
    ensures var k, t := s.work.todo[0], s.trace;
            (Get(t.sent, k) == Some(s.src[k]) <==> k !in t.since || Get(t.sent, k) == Some(t.since[k])) &&
            (k !in Touched(t) ==>
              Get(t.orig, k) == Some(s.src[k]) && Get(t.sent, k) == Some(s.src[k]) && k in s.dst) &&
            (s.fenced ==> Touched(t) == t.slipped)
  {
    hide OwnerInv, Lists, Keys, NoRepeats;
    var k, t := s.work.todo[0], s.trace;
    assert PastCopy(s);
    assert t.orig.Keys - t.gone - {} == t.orig.Keys - t.gone;
    if k !in Touched(t) {
      assert Untouched(t, k);
      assert Get(s.dst, k) == Expected(t, k);
    }
  }

  /** The slot as the source's gate sees it. */
  function SourceView(s: State, addr: string): MigrationFence.SlotView {
    MigrationFence.SlotView("source", Some((if s.owner == Source then "source" else "target", addr)),
                            if s.migrating then Some(addr) else None, false)
  }

  /** The slot as the target's gate sees it. */
  function TargetView(s: State, addr: string): MigrationFence.SlotView {
    MigrationFence.SlotView("target", Some((if s.owner == Source then "source" else "target", addr)), None, s.importing)
  }

  /** A routed write and a RESTORE run on the source exactly in the states where the machine lets a client write. */
  lemma WritesAreGated(s: State, k: Key, v: Bytes, asking: bool, addr: string, addrOf: Option<string>, r: MigrationFence.Request)
    requires addr != "" && MigrationFence.Fenceable(r)
    ensures Admits(s, Source, Routed, k, Some(v)) <==>
            MigrationFence.Gate(asking, SourceView(s, addr), addrOf, Some(k in s.src), r) == MigrationFence.Execute
    ensures Admits(s, Source, Restoring, k, Some(v)) <==>
            MigrationFence.Gate(asking, SourceView(s, addr), addrOf, Some(k in s.src), RESTORE) == MigrationFence.Execute
  {
    MigrationFence.WriteExecutesExactly(asking, SourceView(s, addr), addrOf, Some(k in s.src), r);
  }

  const RESTORE := MigrationFence.Request("RESTORE", true)

  /** The same on the target: a routed write without ASKING, and a RESTORE with it. */
  lemma TargetWritesAreGated(s: State, k: Key, v: Bytes, addr: string, addrOf: Option<string>, r: MigrationFence.Request)
    requires MigrationFence.Fenceable(r)
    ensures Admits(s, Target, Routed, k, Some(v)) <==>
            MigrationFence.Gate(false, TargetView(s, addr), addrOf, Some(k in s.dst), r) == MigrationFence.Execute
    ensures Admits(s, Target, Restoring, k, Some(v)) <==>
            MigrationFence.Gate(true, TargetView(s, addr), addrOf, Some(k in s.dst), RESTORE) == MigrationFence.Execute
  {
    MigrationFence.WriteExecutesExactly(false, TargetView(s, addr), addrOf, Some(k in s.dst), r);
  }

  /** While a copy of the flag is saved, neither a failure nor a crash lifts the fence. */
  lemma FenceSurvivesExactly(s: State)
    requires Inv(s) && s.fenced
    ensures Next(s, Fail).fenced
    ensures Next(s, Crash).fenced <==> s.savedMigrating
    ensures forall k, v :: Enabled(Next(s, Crash), Write(Source, Routed, k, v)) <==> !s.savedMigrating
  {}

  // ------------------------------------------------------------------ recovery

  /** The stores and the owner that a completed recovery leaves, from what the journal says. */
  datatype Placement = Placement(src: Store, dst: Store, owner: Owner)

  function Settled(s: State, reachable: bool): Placement {
    if s.journal.None? || Closed(s) then Placement(s.src, s.dst, s.owner)
    else if Early(s) then
      Placement(s.src, if reachable then map[] else s.dst, Source)
    else Placement(if CopyOnly(s) then s.src else map[], s.dst, Target)
  }

  /** A step of recovery, or a crash or failure in the middle of it, with the target either up or down. */
  ghost predicate Recovers(s: State, e: Event, reachable: bool)
    requires WellFormed(s)
  {
    Enabled(s, e) &&
    match e
    case Recover(_) => true
    case DeleteKey => true
    case ClearFlag(_) => true
    case Assign(known, _) => known
    case SaveDone(_) => s.work.Switched?
    case DropJournal => true
    case UndoTarget(survivors, _) => reachable && survivors == {}
    case UndoClear(_) => reachable ==> s.work.cleaned
    case Fail => true
    case Crash => true
    case _ => false
  }

  ghost predicate RecoveryInv(s: State, reachable: bool) {
    && Inv(s)
    && (s.work.Idle? || s.work.Undoing? || s.work.Undone? || s.work.Deleting? ||
        s.work.Assigning? || s.work.Switched? || s.work.Finishing?)
    && (s.work.Undoing? && s.work.cleaned ==> s.dst == map[])
    && (s.work.Undone? && reachable ==> s.dst == map[])
    && (s.work.Deleting? && !CopyOnly(s) ==> s.src.Keys <= Keys(s.work.todo))
    && (s.work.Assigning? || s.work.Switched? ==> CopyOnly(s) || s.src == map[])
  }

  /** One step of recovery, or a crash inside it, leads to the same placement. */
  lemma RecoveryStep(s: State, e: Event, reachable: bool)
    requires RecoveryInv(s, reachable) && Recovers(s, e, reachable)
    ensures RecoveryInv(Next(s, e), reachable)
    ensures Settled(Next(s, e), reachable) == Settled(s, reachable)
  {
    StepInv(s, e);
    hide Inv, Lists, Keys;
  }

  ghost predicate IsRecovery(s: State, es: seq<Event>, reachable: bool)
    decreases |es|
  {
    WellFormed(s) && (es == [] || (Recovers(s, es[0], reachable) && IsRecovery(Next(s, es[0]), es[1..], reachable)))
  }

  ghost function AfterRecovery(s: State, es: seq<Event>, reachable: bool): State
    requires IsRecovery(s, es, reachable)
    decreases |es|
  {
    if es == [] then s else AfterRecovery(Next(s, es[0]), es[1..], reachable)
  }

  lemma {:induction false} RecoveryRun(s: State, es: seq<Event>, reachable: bool)
    requires RecoveryInv(s, reachable) && IsRecovery(s, es, reachable)
    ensures RecoveryInv(AfterRecovery(s, es, reachable), reachable)
    ensures Settled(AfterRecovery(s, es, reachable), reachable) == Settled(s, reachable)
    decreases |es|
  {
    hide RecoveryInv, Settled, Next, WellFormed, Enabled;
    if es != [] {
      RecoveryStep(s, es[0], reachable);
      RecoveryRun(Next(s, es[0]), es[1..], reachable);
    }
  }

  /**
    Recovery is idempotent: however often it is interrupted and started again, once the journal
    is gone the stores and the owner are those one uninterrupted recovery would leave.
   */
  lemma RecoveryIdempotent(s: State, es: seq<Event>, reachable: bool)
    requires Inv(s) && s.work.Idle? && IsRecovery(s, es, reachable)
    ensures Settled(AfterRecovery(s, es, reachable), reachable) == Settled(s, reachable)
    ensures AfterRecovery(s, es, reachable).journal.None? ==>
              AfterRecovery(s, es, reachable).src == Settled(s, reachable).src &&
              AfterRecovery(s, es, reachable).dst == Settled(s, reachable).dst &&
              AfterRecovery(s, es, reachable).owner == Settled(s, reachable).owner
  {
    RecoveryRun(s, es, reachable);
  }

  /**
    A write the source admits while a commit is owed does not survive recovery. A routed one is
    admitted exactly when the flag is down, one that meets no gate always.
   */
  lemma LateWriteIsLost(s: State, how: How, k: Key, v: Bytes, es: seq<Event>, reachable: bool)
    requires Inv(s) && s.work.Idle? && s.owner == Source && CommitOwed(s)
    ensures Admits(s, Source, Routed, k, Some(v)) <==> !s.migrating
    ensures Admits(s, Source, Ungated, k, Some(v))
    ensures Admits(s, Source, how, k, Some(v)) ==>
              var s' := Next(s, Write(Source, how, k, Some(v)));
              IsRecovery(s', es, reachable) && AfterRecovery(s', es, reachable).journal.None? ==>
                k !in AfterRecovery(s', es, reachable).src && AfterRecovery(s', es, reachable).dst == s.dst
  {
    if Admits(s, Source, how, k, Some(v)) {
      var s' := Next(s, Write(Source, how, k, Some(v)));
      StepInv(s, Write(Source, how, k, Some(v)));
      if IsRecovery(s', es, reachable) { RecoveryIdempotent(s', es, reachable); }
    }
  }

  // ------------------------------------------------------------------ witnesses

  function Fresh(src: Store, dst: Store): State {
    State(src, dst, None, false, false, Source, false, Source, Idle, false, Begin(src, dst))
  }

  lemma ListsOne(k: Key, v: Bytes)
    ensures Lists([k], map[k := v])
  {}

  /** The state and the events once the one key is listed and the target is IMPORTING. */
  lemma OpenedOne(k: Key, v: Bytes, dst: Store) returns (es: seq<Event>, s: State)
    ensures Leads(Fresh(map[k := v], dst), es, s) && Inv(Fresh(map[k := v], dst)) && Inv(s)
    ensures s == Fresh(map[k := v], dst).(journal := Some(Journal(Copying, false)), migrating := true, importing := true,
                                          savedMigrating := true, work := Transfer([k]), fenced := true)
  {
    var s0 := Fresh(map[k := v], dst);
    InitialInv(s0);
    es, s := [], s0;
    hide Inv, Run, IsRun, Keys;
    Then(s0, es, s, SetMigrating(true));
    es, s := es + [SetMigrating(true)], Next(s, SetMigrating(true));
    assert Lists([k], s.src) by { ListsOne(k, v); }
    Then(s0, es, s, Start(false, [k]));
    es, s := es + [Start(false, [k])], Next(s, Start(false, [k]));
    Then(s0, es, s, SaveCopying);
    es, s := es + [SaveCopying], Next(s, SaveCopying);
    Then(s0, es, s, MarkImporting);
    es, s := es + [MarkImporting], Next(s, MarkImporting);
  }

  /** Once the key is copied and COPIED is recorded. */
  lemma CopiedOne(k: Key, v: Bytes, dst: Store) returns (es: seq<Event>, s: State)
    ensures Leads(Fresh(map[k := v], dst), es, s) && Inv(Fresh(map[k := v], dst)) && Inv(s)
    ensures s == Fresh(map[k := v], dst).(journal := Some(Journal(Copied, false)), migrating := true, importing := true,
                                          savedMigrating := true, dst := Restore(dst, k, v), work := Transferred,
                                          fenced := true, trace := s.trace)
  {
    var s0 := Fresh(map[k := v], dst);
    es, s := OpenedOne(k, v, dst);
    hide Inv, Run, IsRun, Keys, Sent;
    Then(s0, es, s, CopyKey(Restored));
    es, s := es + [CopyKey(Restored)], Next(s, CopyKey(Restored));
    Then(s0, es, s, SaveCopied);
    es, s := es + [SaveCopied], Next(s, SaveCopied);
  }

  /** From COPIED, whatever a client has done since, to the point where the one key is deleted and the flag is down, saved. */
  lemma DeletedOne(s0: State, es: seq<Event>, s: State, k: Key, v: Bytes) returns (es': seq<Event>, s': State)
    requires Inv(s0) && Leads(s0, es, s) && Inv(s) && s.work.Transferred? && !CopyOnly(s) && s.src == map[k := v]
    ensures Leads(s0, es', s') && Inv(s') && es <= es' && s'.owner == s.owner
    ensures s'.src == map[] && s'.dst == s.dst && s'.journal == Some(Journal(Commit, false)) && s'.work == Assigning
    ensures !s'.migrating && !s'.savedMigrating && s'.savedOwner == s.owner
  {
    es', s' := es, s;
    hide Inv, Run, IsRun, Keys;
    assert Lists([k], s.src) by { ListsOne(k, v); }
    InvWellFormed(s);
    Then(s0, es', s', SaveCommit([k]));
    es', s' := es' + [SaveCommit([k])], Next(s', SaveCommit([k]));
    Then(s0, es', s', DeleteKey);
    es', s' := es' + [DeleteKey], Next(s', DeleteKey);
    Then(s0, es', s', ClearFlag(true));
    es', s' := es' + [ClearFlag(true)], Next(s', ClearFlag(true));
  }

  /** The same, and the slot handed over. */
  lemma MovedOne(s0: State, es: seq<Event>, s: State, k: Key, v: Bytes) returns (es': seq<Event>)
    requires Inv(s0) && Leads(s0, es, s) && Inv(s) && s.work.Transferred? && !CopyOnly(s) && s.src == map[k := v]
    ensures IsRun(s0, es') && es <= es'
    ensures Run(s0, es').owner == Target && Run(s0, es').src == map[] && Run(s0, es').dst == s.dst
  {
    var s': State;
    es', s' := DeletedOne(s0, es, s, k, v);
    hide Inv, Run, IsRun, Keys;
    InvWellFormed(s');
    Then(s0, es', s', Assign(true, true));
    es', s' := es' + [Assign(true, true)], Next(s', Assign(true, true));
  }

  /** A key left on the target by an earlier, interrupted copy wins over the source's value. */
  lemma StaleTargetKeyWins(k: Key, v: Bytes, w: Bytes) returns (s0: State, es: seq<Event>)
    requires v != w
    ensures Initial(s0) && IsRun(s0, es)
    ensures s0.src == map[k := v] && Run(s0, es).owner == Target
    ensures Run(s0, es).src == map[] && Run(s0, es).dst == map[k := w]
  {
    s0 := Fresh(map[k := v], map[k := w]);
    var s: State;
    es, s := CopiedOne(k, v, map[k := w]);
    es := MovedOne(s0, es, s, k, v);
  }

  /** A transaction, or a RESTORE, overwrites a copied key under the fence; phase 2 deletes what it wrote. */
  lemma SlippedWriteIsLost(how: How, k: Key, v: Bytes, w: Bytes) returns (s0: State, es: seq<Event>)
    requires !how.Routed? && v != w
    ensures Initial(s0) && IsRun(s0, es) && Write(Source, how, k, Some(w)) in es
    ensures Run(s0, es).owner == Target && Run(s0, es).src == map[] && Run(s0, es).dst == map[k := v]
  {
    s0 := Fresh(map[k := v], map[]);
    var s: State;
    es, s := CopiedOne(k, v, map[]);
    hide Inv, Run, IsRun, Keys;
    var e := Write(Source, how, k, Some(w));
    InvWellFormed(s);
    Then(s0, es, s, e);
    var at := |es|;
    es, s := es + [e], Next(s, e);
    es := MovedOne(s0, es, s, k, w);
    assert es[at] == e;
  }

  /** An empty slot, once COPIED is recorded. */
  lemma CopiedNone() returns (es: seq<Event>, s: State)
    ensures Leads(Fresh(map[], map[]), es, s) && Inv(Fresh(map[], map[])) && Inv(s)
    ensures s == Fresh(map[], map[]).(journal := Some(Journal(Copied, false)), migrating := true, savedMigrating := true,
                                      work := Transferred, fenced := true)
  {
    var s0 := Fresh(map[], map[]);
    InitialInv(s0);
    es, s := [], s0;
    hide Inv, Run, IsRun;
    Then(s0, es, s, SetMigrating(true));
    es, s := es + [SetMigrating(true)], Next(s, SetMigrating(true));
    assert Lists([], s.src);
    Then(s0, es, s, Start(false, []));
    es, s := es + [Start(false, [])], Next(s, Start(false, []));
    Then(s0, es, s, SaveCopying);
    es, s := es + [SaveCopying], Next(s, SaveCopying);
    Then(s0, es, s, SaveCopied);
    es, s := es + [SaveCopied], Next(s, SaveCopied);
  }

  /** A transaction creates a key in a slot that has been copied: nobody holds it in the end. */
  lemma NewKeyIsLost(k: Key, w: Bytes) returns (s0: State, es: seq<Event>)
    ensures Initial(s0) && IsRun(s0, es) && Write(Source, Ungated, k, Some(w)) in es
    ensures Run(s0, es).owner == Target && Run(s0, es).src == map[] && Run(s0, es).dst == map[]
  {
    s0 := Fresh(map[], map[]);
    var s: State;
    es, s := CopiedNone();
    hide Inv, Run, IsRun, Keys;
    var e := Write(Source, Ungated, k, Some(w));
    Then(s0, es, s, e);
    var at := |es|;
    es, s := es + [e], Next(s, e);
    es := MovedOne(s0, es, s, k, w);
    assert es[at] == e;
  }

  /** The flag is cleared by gossip or by SETSLOT STABLE in the middle; a routed write is admitted and then deleted. */
  lemma UnfencedWriteIsLost(saved: bool, k: Key, v: Bytes, w: Bytes) returns (s0: State, es: seq<Event>)
    requires v != w
    ensures Initial(s0) && IsRun(s0, es) && Write(Source, Routed, k, Some(w)) in es
    ensures Run(s0, es).owner == Target && Run(s0, es).src == map[] && Run(s0, es).dst == map[k := v]
  {
    s0 := Fresh(map[k := v], map[]);
    var s: State;
    es, s := CopiedOne(k, v, map[]);
    hide Inv, Run, IsRun, Keys;
    Then(s0, es, s, Stable(saved));
    es, s := es + [Stable(saved)], Next(s, Stable(saved));
    var e := Write(Source, Routed, k, Some(w));
    InvWellFormed(s);
    Then(s0, es, s, e);
    var at := |es|;
    es, s := es + [e], Next(s, e);
    es := MovedOne(s0, es, s, k, w);
    assert es[at] == e;
  }

  /** A write past the importing target's fence replaces what was copied. */
  lemma TargetWriteWins(how: How, k: Key, v: Bytes, w: Bytes) returns (s0: State, es: seq<Event>)
    requires !how.Routed? && v != w
    ensures Initial(s0) && IsRun(s0, es) && Write(Target, how, k, Some(w)) in es
    ensures Run(s0, es).owner == Target && Run(s0, es).src == map[] && Run(s0, es).dst == map[k := w]
  {
    s0 := Fresh(map[k := v], map[]);
    var s: State;
    es, s := CopiedOne(k, v, map[]);
    hide Inv, Run, IsRun, Keys;
    var e := Write(Target, how, k, Some(w));
    InvWellFormed(s);
    Then(s0, es, s, e);
    var at := |es|;
    es, s := es + [e], Next(s, e);
    es := MovedOne(s0, es, s, k, v);
    assert es[at] == e;
  }

  /** Recovery of a commit that is owed, with one key on the source. */
  lemma RecoveredOne(s0: State, es: seq<Event>, s: State, k: Key, v: Bytes) returns (es': seq<Event>)
    requires Inv(s0) && Leads(s0, es, s) && Inv(s) && s.work.Idle? && CommitOwed(s) && s.src == map[k := v]
    ensures IsRun(s0, es') && es <= es'
    ensures Run(s0, es').owner == Target && Run(s0, es').src == map[] && Run(s0, es').dst == s.dst
  {
    var s' := s;
    es' := es;
    hide Inv, Run, IsRun, Keys;
    InvWellFormed(s);
    assert Lists([k], s.src) by { ListsOne(k, v); }
    Then(s0, es', s', Recover([k]));
    es', s' := es' + [Recover([k])], Next(s', Recover([k]));
    Then(s0, es', s', DeleteKey);
    es', s' := es' + [DeleteKey], Next(s', DeleteKey);
    Then(s0, es', s', ClearFlag(true));
    es', s' := es' + [ClearFlag(true)], Next(s', ClearFlag(true));
    Then(s0, es', s', Assign(true, true));
    es', s' := es' + [Assign(true, true)], Next(s', Assign(true, true));
  }

  /** A crash after the flag is cleared and before the slot is assigned lets a write in that recovery deletes. */
  lemma WriteBeforeAssignIsLost(k: Key, v: Bytes, w: Bytes) returns (s0: State, es: seq<Event>)
    requires v != w
    ensures Initial(s0) && IsRun(s0, es) && Write(Source, Routed, k, Some(w)) in es
    ensures Run(s0, es).owner == Target && Run(s0, es).src == map[] && Run(s0, es).dst == map[k := v]
  {
    s0 := Fresh(map[k := v], map[]);
    var s: State;
    es, s := CopiedOne(k, v, map[]);
    es, s := DeletedOne(s0, es, s, k, v);
    hide Inv, Run, IsRun, Keys;
    InvWellFormed(s);
    Then(s0, es, s, Crash);
    es, s := es + [Crash], Next(s, Crash);
    var e := Write(Source, Routed, k, Some(w));
    Then(s0, es, s, e);
    var at := |es|;
    es, s := es + [e], Next(s, e);
    es := RecoveredOne(s0, es, s, k, w);
    assert es[at] == e;
  }
}
