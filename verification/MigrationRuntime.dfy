/** The migrating node's procedures, proved to walk the migration machine. */
module MigrationRuntime {
  import opened Basics
  import opened Migration
  import opened MigrationSafety

  /** How the environment treats one operation: a write, a save, a message. */
  datatype Fate = Works | Errors(ran: bool, survivors: set<Key>, stable: bool) | Crashes

  datatype Ended = Refused | Completed | Failed

  lemma OnlyAt(s: Store, keys: set<Key>)
    ensures forall k :: Get(Only(s, keys), k) == if k in keys then Get(s, k) else None
  {}

  /** What recovery's clean-up of the target leaves: nothing, or all of it, or the survivors of one that broke off. */
  ghost predicate Remains(was: Store, marked: bool, abort: Fate, dst: Store, importing: bool) {
    && (abort.Works? ==> dst == map[] && !importing)
    && (abort.Errors? && !abort.ran ==> dst == was && importing == marked)
    && (abort.Errors? && abort.ran ==>
          importing == (marked && !abort.stable) && forall k :: Get(dst, k) == if k in abort.survivors then Get(was, k) else None)
  }

  lemma KeysLeft(s: Store, keys: seq<Key>, i: nat)
    requires i < |keys| && s.Keys <= Keys(keys[i..])
    ensures (s - {keys[i]}).Keys <= Keys(keys[i + 1..]) && keys[i..][1..] == keys[i + 1..]
  {
    assert forall k :: k in keys[i..] ==> k == keys[i] || k in keys[i + 1..];
  }

  lemma EmptyListing(s: Store, keys: seq<Key>)
    ensures |keys| == 0 && Keys(keys) == s.Keys ==> s == map[]
  {}

  lemma NoKeysLeft(s: Store, keys: seq<Key>)
    requires |keys| == 0 && s.Keys <= Keys(keys)
    ensures s == map[] && keys == []
  {}

  lemma ClearFlagShape(s: State, saves: bool)
    requires WellFormed(s) && s.work.Deleting? && |s.work.todo| == 0
    ensures Enabled(s, ClearFlag(saves)) && Next(s, ClearFlag(saves)) == Cleared(s, saves).(work := Assigning)
  {}

  lemma ClearCopyShape(s: State, saves: bool)
    requires WellFormed(s) && s.work.CopyDone?
    ensures Enabled(s, ClearCopy(saves)) && Next(s, ClearCopy(saves)) == Cleared(s, saves).(work := Idle)
  {}

  /** One key has been restored on the target, unless it was there. */
  ghost predicate OneSent(was: Store, key: Key, v: Bytes, dst: Store) {
    forall k :: Get(dst, k) == if k == key && k !in was then Some(v) else Get(was, k)
  }

  /** Every key on the target has the value it had there, or the source's. */
  ghost predicate Between(was: Store, src: Store, dst: Store) {
    forall k :: k in dst ==> Get(was, k) == Some(dst[k]) || (k !in was && Get(src, k) == Some(dst[k]))
  }

  lemma BetweenSelf(dst: Store, src: Store)
    ensures Between(dst, src, dst)
  {}

  lemma BetweenStep(was: Store, src: Store, mid: Store, key: Key, f: Fate, dst: Store, ok: bool)
    requires Between(was, src, mid) && was.Keys <= mid.Keys && key in src
    requires ok ==> OneSent(mid, key, src[key], dst)
    requires f.Crashes? ==> dst == mid
    requires !ok && f.Errors? ==> Cleaned(mid, key, if f.ran then Some(src[key]) else None, f.survivors, dst)
    requires !ok && f.Works? ==> dst == map[]
    ensures Between(was, src, dst) && (ok ==> was.Keys <= dst.Keys)
    ensures !ok && f.Errors? ==> dst.Keys <= f.survivors
  {
    forall k | k in dst
      ensures Get(was, k) == Some(dst[k]) || (k !in was && Get(src, k) == Some(dst[k]))
      ensures !ok && f.Errors? ==> k in f.survivors
    {
      assert Get(dst, k) == Some(dst[k]);
    }
    if ok {
      forall k | k in was ensures k in dst { assert Get(dst, k) == Get(mid, k); }
    }
  }

  lemma NoneLeft(was: Store, key: Key, dst: Store)
    requires Cleaned(was, key, None, {}, dst)
    ensures dst == map[]
  {
    forall k ensures k !in dst { assert Get(dst, k) == None; }
  }

  /** A listing is as long as the store. */
  lemma ListSize(todo: seq<Key>, s: Store)
    requires Lists(todo, s)
    ensures |todo| == |s|
  {
    KeysCount(todo);
    assert |s.Keys| == |s|;
  }

  lemma ListedKeys(todo: seq<Key>, s: Store)
    requires Lists(todo, s)
    ensures Keys(todo) == s.Keys
  {}

  lemma {:induction false} KeysCount(todo: seq<Key>)
    requires NoRepeats(todo)
    ensures |Keys(todo)| == |todo|
  {
    if |todo| == 0 {
      NoKeys();
    } else {
      KeysSplit(todo);
      KeysCount(todo[1..]);
      assert Keys(todo) == Keys(todo[1..]) + {todo[0]};
    }
  }

  /** The migration began with these stores, and nothing has happened to the slot beside it. */
  predicate Quiet(t: Trace, orig: Store, prior: Store) {
    t.orig == orig && t.prior == prior && t.gone == {} && Touched(t) == {}
  }

  lemma CopiedIsMerged(s: State)
    requires Inv(s) && s.work.Transferred? && Quiet(s.trace, s.trace.orig, s.trace.prior)
    ensures s.dst == Merged(s.trace.prior, s.trace.orig)
  {
    hide OwnerInv, Holds, SourceIs;
    var t := s.trace;
    assert t.orig.Keys - t.gone - {} == t.orig.Keys;
    forall k ensures Get(s.dst, k) == Get(Merged(t.prior, t.orig), k) {
      assert Get(s.dst, k) == Expected(t, k) && Untouched(t, k);
    }
    SameStore(s.dst, Merged(t.prior, t.orig));
  }

  lemma MergedAt(prior: Store, moved: Store)
    ensures forall k :: Get(Merged(prior, moved), k) == if k in prior then Some(prior[k]) else Get(moved, k)
  {}

  lemma SameStore(a: Store, b: Store)
    requires forall k :: Get(a, k) == Get(b, k)
    ensures a == b
  {
    assert forall k :: k in a <==> k in b by { forall k ensures k in a <==> k in b { assert Get(a, k) == Get(b, k); } }
    assert forall k :: k in a ==> a[k] == b[k] by { forall k | k in a ensures a[k] == b[k] { assert Get(a, k) == Get(b, k); } }
  }

  lemma UndoClearShape(s: State, saves: bool)
    requires WellFormed(s) && s.work.Undoing?
    ensures Enabled(s, UndoClear(saves)) && Next(s, UndoClear(saves)) == Cleared(s, saves).(work := Undone)
  {}

  lemma OwnerWhileEarly(s: State)
    requires Inv(s) && Early(s)
    ensures s.owner == Source
  {}

  lemma SettledIs(s: State, reachable: bool)
    requires s.journal.Some?
    ensures Closed(s) ==> Settled(s, reachable) == Placement(s.src, s.dst, s.owner)
    ensures Early(s) ==> Settled(s, reachable) == Placement(s.src, if reachable then map[] else s.dst, Source)
    ensures Late(s) ==> Settled(s, reachable) == Placement(if CopyOnly(s) then s.src else map[], s.dst, Target)
  {}

  datatype Config = Config(migrating: bool, owner: Owner)

  class SlotMigrator {
    var src: Store
    var dst: Store
    var journal: Option<Journal>
    var importing: bool
    // the slot's part of the configuration: in memory, and as last saved
    var config: Config
    var saved: Config
    // the machine's state, and the run that led to it
    ghost var now: State
    ghost var first: State
    ghost var log: seq<Event>

    ghost predicate Shows(s: State)
      reads this
    {
      src == s.src && dst == s.dst && journal == s.journal && importing == s.importing &&
      config == Config(s.migrating, s.owner) && saved == Config(s.savedMigrating, s.savedOwner)
    }

    /** Neither store has changed, nor the target's IMPORTING mark. */
    ghost predicate SameStores(src0: Store, dst0: Store, importing0: bool)
      reads this
    {
      src == src0 && dst == dst0 && importing == importing0
    }

    ghost predicate OnRun()
      reads this
    {
      Inv(first) && Leads(first, log, now) && Inv(now)
    }

    /** The object is in a state of the machine that a run reaches. */
    ghost predicate Valid()
      reads this
    {
      OnRun() && Shows(now)
    }

    constructor (src: Store, dst: Store, migrating: bool)
      ensures Valid() && Initial(now) && log == []
      ensures this.src == src && this.dst == dst && config.migrating == migrating
    {
      this.src, this.dst, journal, importing := src, dst, None, false;
      config, saved := Config(migrating, Source), Config(migrating, Source);
      log := [];
      first := State(src, dst, None, false, migrating, Source, migrating, Source, Idle, false, Begin(src, dst));
      now := State(src, dst, None, false, migrating, Source, migrating, Source, Idle, false, Begin(src, dst));
    }

    /** The fields have been changed as the machine's next step says. */
    ghost method Record(e: Event)
      requires OnRun() && Enabled(now, e) && Shows(Next(now, e))
      modifies this`log, this`now
      ensures Valid() && log == old(log) + [e] && now == Next(old(now), e)
    {
      hide Inv, Leads, Enabled, Next;
      InvWellFormed(now);
      Then(first, log, now, e);
      log := log + [e];
      now := Next(now, e);
    }

    /** The process dies and comes back with what its configuration says. */
    method Restart()
      requires Valid()
      modifies this
      ensures Valid() && first == old(first) && old(log) <= log && now == Next(old(now), Crash) && now.work.Idle?
      ensures SameStores(old(src), old(dst), old(importing)) && config == old(saved)
    {
      hide Inv, Leads;
      config := saved;
      Record(Crash);
    }

    /** An operation is tried: it works, or the procedure returns an error, or the process dies. */
    method Attempt(f: Fate) returns (go: bool)
      requires Valid()
      modifies this
      ensures Valid() && first == old(first) && old(log) <= log
      ensures go == f.Works?
      ensures if go then now == old(now) else now.work.Idle?
      ensures SameStores(old(src), old(dst), old(importing)) && journal == old(journal)
    {
      hide Inv, Leads;
      go := f.Works?;
      if f.Crashes? {
        Restart();
      } else if f.Errors? {
        Record(Fail);
      }
    }

    method CollectSlotKeys() returns (keys: seq<Key>)
      ensures Lists(keys, src)
    {
      keys := [];
      var rest := src.Keys;
      while rest != {}
        invariant rest <= src.Keys && Keys(keys) == src.Keys - rest && NoRepeats(keys)
        decreases rest
      {
        var k :| k in rest;
        assert k !in Keys(keys);
        assert Keys(keys + [k]) == Keys(keys) + {k};
        keys := keys + [k];
        rest := rest - {k};
      }
    }

    // ------------------------------------------------------- one step each

    method SaveInit(copy: bool, keys: seq<Key>)
      requires Valid() && Enabled(now, Start(copy, keys))
      modifies this
      ensures Valid() && first == old(first) && old(log) <= log
      ensures now == old(now).(journal := Some(Journal(Init, copy)), work := Opening(keys), trace := Begin(src, dst), fenced := true)
    {
      hide Inv, Leads, Lists, Restore, Only, Keys;
      journal := Some(Journal(Init, copy));
      Record(Start(copy, keys));
    }

    method SaveCopyingPhase()
      requires Valid() && now.work.Opening?
      modifies this
      ensures Valid() && first == old(first) && old(log) <= log
      ensures now == old(SetPhase(now, Copying).(work := Transfer(now.work.todo)))
    {
      hide Inv, Leads, Lists, Restore, Only, Keys;
      InvWellFormed(now);
      journal := Some(journal.value.(phase := Copying));
      Record(SaveCopying);
    }

    method MarkTarget()
      requires Valid() && now.work.Transfer?
      modifies this
      ensures Valid() && first == old(first) && old(log) <= log
      ensures now == old(now).(importing := true)
    {
      hide Inv, Leads, Lists, Restore, Only, Keys;
      importing := true;
      Record(MarkImporting);
    }

    /** A key gone since it was listed is passed over. */
    method SkipKey(key: Key)
      requires Valid() && now.work.Transfer? && |now.work.todo| > 0 && now.work.todo[0] == key && key !in src
      modifies this
      ensures Valid() && first == old(first) && old(log) <= log
      ensures now == old(now.(work := Transfer(now.work.todo[1..])))
    {
      hide Inv, Leads, Lists, Restore, Only, Keys;
      Record(CopyKey(DumpFails({}, false)));
    }

    method RestoreKey(key: Key)
      requires Valid() && now.work.Transfer? && |now.work.todo| > 0 && now.work.todo[0] == key && key in src && importing
      modifies this
      ensures Valid() && first == old(first) && old(log) <= log
      ensures now == old(now.(dst := Restore(dst, key, src[key]), trace := Sent(now.trace, key, src[key], dst),
                              work := Transfer(now.work.todo[1..])))
    {
      hide Inv, Leads, Lists, Restore, Only, Keys;
      dst := Restore(dst, key, src[key]);
      Record(CopyKey(Restored));
    }

    /** A dump error, a lost reply, or MOVED from a target that is not IMPORTING. */
    method AbortCopy(key: Key, ran: bool, survivors: set<Key>, stable: bool)
      requires Valid() && now.work.Transfer? && |now.work.todo| > 0 && now.work.todo[0] == key && key in src
      modifies this
      ensures Valid() && first == old(first) && old(log) <= log && now.work.Idle?
      ensures src == old(src) && importing == (old(importing) && !stable)
      ensures Cleaned(old(dst), key, if ran then Some(src[key]) else None, survivors, dst)
    {
      hide Inv, Leads, Restore, Only, Cleaned;
      InvWellFormed(now);
      CopyExact(now, RestoreFails(ran, survivors, stable));
      var left := Only(if ran then Restore(dst, key, src[key]) else dst, survivors);
      assert left == CopyTo(now, key, RestoreFails(ran, survivors, stable));
      dst := left;
      importing := importing && !stable;
      Record(CopyKey(RestoreFails(ran, survivors, stable)));
    }

    method SaveCopiedPhase()
      requires Valid() && now.work.Transfer? && |now.work.todo| == 0
      modifies this
      ensures Valid() && first == old(first) && old(log) <= log
      ensures now == old(SetPhase(now, Copied).(work := Transferred))
    {
      hide Inv, Leads, Lists, Restore, Only, Keys;
      InvWellFormed(now);
      journal := Some(journal.value.(phase := Copied));
      Record(SaveCopied);
    }

    method SaveCommitPhase(keys: seq<Key>)
      requires Valid() && now.work.Transferred? && !CopyOnly(now) && Lists(keys, src)
      modifies this
      ensures Valid() && first == old(first) && old(log) <= log
      ensures now == old(SetPhase(now, Commit).(work := Deleting(keys, false)))
    {
      hide Inv, Leads, Lists, Restore, Only, Keys;
      InvWellFormed(now);
      journal := Some(journal.value.(phase := Commit));
      Record(SaveCommit(keys));
    }

    method DeleteOne(key: Key)
      requires Valid() && now.work.Deleting? && |now.work.todo| > 0 && now.work.todo[0] == key
      modifies this
      ensures Valid() && first == old(first) && old(log) <= log && src == old(src) - {key}
      ensures now == old(now).(src := src, work := Deleting(old(now.work.todo[1..]), old(now.work.recovering)))
    {
      hide Inv, Leads;
      src := src - {key};
      Record(DeleteKey);
    }

    /** ClearSlotMigration: whether the save works does not matter to it. */
    method ClearSlotMigration(saves: bool)
      requires Valid() && now.work.Deleting? && |now.work.todo| == 0
      modifies this
      ensures Valid() && first == old(first) && old(log) <= log
      ensures config == Config(false, old(config.owner)) && saved == (if saves then config else old(saved))
      ensures SameStores(old(src), old(dst), old(importing))
      ensures now == Cleared(old(now), saves).(work := Assigning)
    {
      hide Inv, Leads, Next, Enabled;
      InvWellFormed(now);
      ClearFlagShape(now, saves);
      config := Config(false, config.owner);
      if saves { saved := config; }
      Record(ClearFlag(saves));
    }

    /** AssignSlot fails on an unknown target, and when it cannot save. */
    method AssignSlot(known: bool, saves: bool) returns (ok: bool)
      requires Valid() && now.work.Assigning?
      modifies this
      ensures Valid() && first == old(first) && old(log) <= log
      ensures config == Config(false, if known then Target else old(config.owner)) && saved == if ok then config else old(saved)
      ensures SameStores(old(src), old(dst), old(importing))
      ensures ok == (known && saves) && now == AssignStep(old(now), known, saves)
    {
      hide Inv, Leads;
      ok := known && saves;
      config := Config(false, if known then Target else config.owner);
      if ok { saved := config; }
      Record(Assign(known, saves));
    }

    /** DONE after a commit; the target has been told to leave IMPORTING, or could not be reached. */
    method SaveDonePhase(told: bool)
      requires Valid() && now.work.Switched?
      modifies this
      ensures Valid() && first == old(first) && old(log) <= log
      ensures now == old(SetPhase(now, Done).(work := Finishing, importing := importing && !told))
    {
      hide Inv, Leads;
      InvWellFormed(now);
      journal := Some(journal.value.(phase := Done));
      importing := importing && !told;
      Record(SaveDone(told));
    }

    /** DONE after a copy. */
    method SaveCopyDone()
      requires Valid() && now.work.Transferred? && CopyOnly(now)
      modifies this
      ensures Valid() && first == old(first) && old(log) <= log
      ensures now == old(SetPhase(now, Done).(work := CopyDone))
    {
      hide Inv, Leads;
      InvWellFormed(now);
      journal := Some(journal.value.(phase := Done));
      Record(SaveDone(false));
    }

    method ClearAfterCopy(saves: bool)
      requires Valid() && now.work.CopyDone?
      modifies this
      ensures Valid() && first == old(first) && old(log) <= log
      ensures config == Config(false, old(config.owner)) && saved == (if saves then config else old(saved))
      ensures SameStores(old(src), old(dst), old(importing))
      ensures now == Cleared(old(now), saves).(work := Idle)
    {
      hide Inv, Leads, Next, Enabled;
      InvWellFormed(now);
      ClearCopyShape(now, saves);
      config := Config(false, config.owner);
      if saves { saved := config; }
      Record(ClearCopy(saves));
    }

    method DeleteJournal()
      requires Valid() && (now.work.Finishing? || now.work.Undone? || now.work.Switched?)
      modifies this
      ensures Valid() && first == old(first) && old(log) <= log
      ensures now == old(now).(journal := None, work := Idle)
    {
      hide Inv, Leads, Lists, Restore, Only, Keys;
      journal := None;
      Record(DropJournal);
    }

    // ------------------------------------------------------------------ phase 1

    /**
      The guards, the key listing, INIT and COPYING, and SETSLOT IMPORTING on the target.
      `found` says whether the target is in the node table.
     */
    method BeginCopy(copy: bool, found: bool, env: nat -> Fate) returns (r: Ended, keys: seq<Key>)
      requires Valid() && now.work.Idle?
      modifies this
      ensures Valid() && first == old(first) && old(log) <= log
      ensures r == Refused <==> !(old(config) == Config(true, Source) && (old(journal).None? || Closed(old(now))) && found)
      ensures r == Refused ==> now == old(now)
      ensures r == Completed ==>
                now.work == Transfer(keys) && now.journal == Some(Journal(Copying, copy)) &&
                Quiet(now.trace, old(src), old(dst)) && config == Config(true, Source) && Lists(keys, old(src))
      ensures r == Failed ==> now.work.Idle?
      ensures src == old(src) && dst == old(dst)
      ensures r == Completed <==> r != Refused && Opens(env)
      ensures r == Completed ==> importing == (old(importing) || env(3).Works?)
    {
      hide Inv, Leads, Lists;
      keys := [];
      if !config.migrating || config.owner != Source || (journal.Some? && !journal.value.phase.Done?) { return Refused, keys; }
      if !found { return Refused, keys; }
      keys := CollectSlotKeys();
      var go := Open(copy, keys, env);
      r := if go then Completed else Failed;
    }

    /** The journal can be saved twice, the target dialled, and the process survives. */
    static predicate Opens(env: nat -> Fate) { env(0).Works? && env(1).Works? && env(2).Works? && !env(3).Crashes? }

    /** INIT and COPYING are recorded and the target prepared. */
    method Open(copy: bool, keys: seq<Key>, env: nat -> Fate) returns (go: bool)
      requires Valid() && Enabled(now, Start(copy, keys))
      modifies this
      ensures Valid() && first == old(first) && old(log) <= log
      ensures if go then
                now.work == Transfer(keys) && now.journal == Some(Journal(Copying, copy)) &&
                Quiet(now.trace, old(src), old(dst)) && config == old(config) && importing == (old(importing) || env(3).Works?)
              else now.work.Idle?
      ensures src == old(src) && dst == old(dst) && go == Opens(env)
    {
      hide Inv, Leads, Next, Enabled;
      go := Attempt(env(0));
      if !go { return; }
      SaveInit(copy, keys);
      go := Attempt(env(1));
      if !go { return; }
      SaveCopyingPhase();
      go := Connect(env(2), env(3));
    }

    /** The connection is needed; marking the target IMPORTING may fail. */
    method Connect(dial: Fate, mark: Fate) returns (go: bool)
      requires Valid() && now.work.Transfer?
      modifies this
      ensures Valid() && first == old(first) && old(log) <= log
      ensures if go then now == old(now).(importing := importing) else now.work.Idle?
      ensures src == old(src) && dst == old(dst) && go == (dial.Works? && !mark.Crashes?)
      ensures go ==> importing == (old(importing) || mark.Works?)
    {
      hide Inv, Leads, Next, Enabled;
      go := Attempt(dial);
      if !go { return; }
      if mark.Crashes? {
        Restart();
        go := false;
      } else if mark.Works? {
        MarkTarget();
      }
    }

    /** DUMP here and RESTORE there; on an error the target is asked to drop its slot keys. */
    method CopyOneKey(key: Key, f: Fate) returns (ok: bool)
      requires Valid() && now.work.Transfer? && |now.work.todo| > 0 && now.work.todo[0] == key
      modifies this
      ensures Valid() && first == old(first) && old(log) <= log
      ensures if ok then now == old(now).(dst := dst, trace := now.trace, work := Transfer(old(now.work.todo[1..]))) else now.work.Idle?
      ensures forall a, b :: ok && Quiet(old(now.trace), a, b) ==> Quiet(now.trace, a, b)
      ensures src == old(src) && (ok <==> !f.Crashes? && (key !in src || (f.Works? && old(importing))))
      ensures ok ==> importing == old(importing) && (key !in src ==> dst == old(dst))
      ensures ok && key in src ==> OneSent(old(dst), key, src[key], dst)
      ensures f.Crashes? ==> dst == old(dst) && importing == old(importing)
      ensures !ok && f.Errors? ==>
                Cleaned(old(dst), key, if f.ran then Some(src[key]) else None, f.survivors, dst) &&
                importing == (old(importing) && !f.stable)
      ensures !ok && f.Works? ==> dst == map[] && !importing
    {
      hide Inv, Leads, Next, Enabled, Only;
      ok := !f.Crashes? && (key !in src || (f.Works? && importing));
      if f.Crashes? {
        Restart();
      } else if key !in src {
        SkipKey(key);
      } else if ok {
        RestoreKey(key);
      } else if f.Errors? {
        AbortCopy(key, f.ran, f.survivors, f.stable);
      } else {
        AbortCopy(key, false, {}, true);
        NoneLeft(old(dst), key, dst);
      }
    }

    /** The copy loop. At an error, the `at`-th key's, what is left on the target is what the clean-up left. */
    method CopyKeys(keys: seq<Key>, env: nat -> Fate) returns (ok: bool, ghost at: nat)
      requires Valid() && now.work == Transfer(keys) && Keys(keys) <= src.Keys
      modifies this
      ensures Valid() && first == old(first) && old(log) <= log
      ensures if ok then now == old(now).(dst := dst, trace := now.trace, work := Transfer([])) else now.work.Idle?
      ensures forall a, b :: ok && Quiet(old(now.trace), a, b) ==> Quiet(now.trace, a, b)
      ensures src == old(src) && Between(old(dst), src, dst)
      ensures ok ==> importing == old(importing) && (|keys| == 0 || importing) && forall j :: 0 <= j < |keys| ==> env(j).Works?
      ensures !ok ==> at < |keys| && (forall j :: 0 <= j < at ==> env(j).Works?) && CopyStopped(env(at))
      ensures !ok ==> if old(importing) then !env(at).Works? else at == 0
    {
      hide Inv, Leads, Next, Enabled, Cleaned, OneSent, Between;
      var i := 0;
      BetweenSelf(dst, src);
      while i < |keys|
        invariant 0 <= i <= |keys|
        invariant Valid() && first == old(first) && old(log) <= log && src == old(src)
        invariant now == old(now).(dst := dst, trace := now.trace, work := Transfer(keys[i..]))
        invariant forall a, b :: Quiet(old(now.trace), a, b) ==> Quiet(now.trace, a, b)
        invariant importing == old(importing) && (i > 0 ==> importing) && forall j :: 0 <= j < i ==> env(j).Works?
        invariant Between(old(dst), src, dst) && old(dst).Keys <= dst.Keys
      {
        assert keys[i] in Keys(keys);
        ghost var was := dst;
        ok := CopyOneKey(keys[i], env(i));
        BetweenStep(old(dst), src, was, keys[i], env(i), dst, ok);
        if !ok {
          at := i;
          return;
        }
        assert keys[i..][1..] == keys[i + 1..];
        i := i + 1;
      }
      assert keys[i..] == [];
      ok, at := true, i;
    }

    /** Where a failed copy leaves the target. */
    ghost predicate CopyStopped(f: Fate)
      reads this
    {
      (f.Errors? ==> dst.Keys <= f.survivors && (f.stable ==> !importing)) && (f.Works? ==> dst == map[] && !importing)
    }

    // ------------------------------------------------------------------ phase 2

    method DeleteNext(key: Key, f: Fate) returns (ok: bool)
      requires Valid() && now.work.Deleting? && |now.work.todo| > 0 && now.work.todo[0] == key
      modifies this
      ensures Valid() && first == old(first) && old(log) <= log
      ensures ok == f.Works? && (!ok ==> src == old(src))
      ensures dst == old(dst)
      ensures ok ==> src == old(src) - {key}
      ensures if ok then now == old(now).(src := src, work := Deleting(old(now.work.todo[1..]), old(now.work.recovering)))
              else now.work.Idle?
    {
      hide Inv, Leads, Next, Enabled;
      ok := Attempt(f);
      if ok { DeleteOne(key); }
    }

    method DeleteKeys(keys: seq<Key>, env: nat -> Fate) returns (ok: bool)
      requires Valid() && now.work.Deleting? && now.work.todo == keys && src.Keys <= Keys(keys)
      modifies this
      ensures Valid() && first == old(first) && old(log) <= log
      ensures ok <==> AllWork(|keys|, env)
      ensures dst == old(dst)
      ensures if ok then now == old(now).(src := map[], work := Deleting([], old(now.work.recovering))) else now.work.Idle?
    {
      hide Inv, Leads, Next, Enabled, Keys;
      var i := 0;
      assert keys[0..] == keys;
      while i < |keys|
        invariant 0 <= i <= |keys|
        invariant Valid() && first == old(first) && old(log) <= log && src.Keys <= Keys(keys[i..])
        invariant now == old(now).(src := src, work := Deleting(keys[i..], old(now.work.recovering)))
        invariant forall j: nat :: j < i ==> env(j).Works?
      {
        KeysLeft(src, keys, i);
        ok := DeleteNext(keys[i], env(i));
        if !ok { return; }
        i := i + 1;
      }
      NoKeysLeft(src, keys[i..]);
      ok := true;
    }

    /** The slot changes hands; `known` says whether the target is in the node table. */
    method SwitchOwner(known: bool, clear: Fate, assign: Fate) returns (ok: bool)
      requires Valid() && now.work.Deleting? && |now.work.todo| == 0
      modifies this
      ensures Valid() && first == old(first) && old(log) <= log
      ensures src == old(src)
      ensures dst == old(dst)
      ensures if ok then now == old(now).(migrating := false, fenced := false, owner := Target, savedMigrating := false,
                                          savedOwner := Target, work := Switched)
              else now.work.Idle?
      ensures ok <==> known && !clear.Crashes? && assign.Works?
    {
      hide Inv, Leads, Next, Enabled;
      ok := false;
      if clear.Crashes? {
        Restart();
        return;
      }
      ClearSlotMigration(clear.Works?);
      if assign.Crashes? {
        Restart();
        return;
      }
      ok := AssignSlot(known, assign.Works?);
    }

    /** Phase 2: COMMIT, the keys deleted, the slot handed over, the target told, DONE. */
    method CommitPhase(known: bool, told: bool, env: nat -> Fate, del: nat -> Fate) returns (ok: bool)
      requires Valid() && now.work.Transferred? && !CopyOnly(now)
      modifies this
      ensures Valid() && first == old(first) && old(log) <= log
      ensures ok <==> env(0).Works? && AllWork(|old(src)|, del) && known && !env(1).Crashes? && env(2).Works? && env(3).Works?
      ensures ok ==> importing == (old(importing) && !told)
      ensures dst == old(dst)
      ensures if ok then now.work.Finishing? && now.src == map[] && now.dst == old(now.dst) && now.owner == Target
              else now.work.Idle?
    {
      hide Inv, Leads, Next, Enabled;
      ok := Attempt(env(0));
      if !ok { return; }
      ok := EmptySource(del);
      if !ok { return; }
      ok := SwitchOwner(known, env(1), env(2));
      if !ok { return; }
      ok := Attempt(env(3));
      if !ok { return; }
      SaveDonePhase(told);
    }

    /** COMMIT is recorded, and the slot listed again and deleted. */
    method EmptySource(del: nat -> Fate) returns (ok: bool)
      requires Valid() && now.work.Transferred? && !CopyOnly(now)
      modifies this
      ensures Valid() && first == old(first) && old(log) <= log
      ensures (ok <==> AllWork(|old(src)|, del)) && (ok ==> importing == old(importing))
      ensures dst == old(dst)
      ensures if ok then now.work == Deleting([], false) && now.src == map[] && now.dst == old(now.dst) else now.work.Idle?
    {
      hide Inv, Leads, Next, Enabled;
      var keys := CollectSlotKeys();
      ListSize(keys, src);
      SaveCommitPhase(keys);
      ok := DeleteKeys(keys, del);
    }

    /** A copy stops at DONE: nothing is deleted and the slot stays. */
    method FinishCopy(env: nat -> Fate) returns (ok: bool)
      requires Valid() && now.work.Transferred? && CopyOnly(now)
      modifies this
      ensures Valid() && first == old(first) && old(log) <= log && now.work.Idle?
      ensures ok <==> env(0).Works? && !env(1).Crashes?
      ensures src == old(src) && dst == old(dst)
      ensures ok ==> now == Cleared(old(now), env(1).Works?).(journal := now.journal, work := Idle)
    {
      hide Inv, Leads, Next, Enabled;
      ok := Attempt(env(0));
      if !ok { return; }
      SaveCopyDone();
      if env(1).Crashes? {
        Restart();
        return false;
      }
      ClearAfterCopy(env(1).Works?);
    }

    /**
      MigrateSlotCrashSafe. Whatever the environment does, the node stays on a run of the
      machine. When the procedure reports success the target holds both stores together, its
      own values first, and the source has kept everything or nothing. The target may leave the
      node table on the way: `found` is asked at the start, `known` at the switch.
     */
    method MigrateSlotCrashSafe(copy: bool, found: bool, known: bool, told: bool, begin: nat -> Fate, keep: nat -> Fate,
                                finish: nat -> Fate, del: nat -> Fate) returns (r: Ended)
      requires Valid() && now.work.Idle?
      modifies this
      ensures Valid() && first == old(first) && old(log) <= log && now.work.Idle?
      ensures r == Completed <==> r != Refused && CopyWorks(|old(src)|, old(importing), begin, keep) && finish(0).Works? &&
                                  FinishWorks(copy, known, |old(src)|, finish, del)
      ensures r == Completed ==> forall k :: Get(dst, k) == if k in old(dst) then Some(old(dst)[k]) else Get(old(src), k)
      ensures r == Refused <==> !(old(config) == Config(true, Source) && (old(journal).None? || Closed(old(now))) && found)
      ensures r == Refused ==> now == old(now)
      ensures r == Completed ==> dst == Merged(old(dst), old(src))
      ensures r == Completed && copy ==> src == old(src) && config == Config(false, Source)
      ensures r == Completed && !copy ==> src == map[] && config.owner == Target
      ensures r == Failed ==> src == old(src) || (!copy && dst == Merged(old(dst), old(src)))
      ensures r == Failed ==> Between(old(dst), old(src), dst)
      ensures forall i: nat :: r != Refused && Opens(begin) && (old(importing) || begin(3).Works?) && StopsAt(|old(src)|, keep, i) ==>
                r == Failed && src == old(src) && dst.Keys <= keep(i).survivors && (keep(i).stable ==> !importing)
      ensures r != Refused && Opens(begin) && !old(importing) && !begin(3).Works? && |old(src)| > 0 && keep(0).Works? ==>
                r == Failed && src == old(src) && dst == map[] && !importing
    {
      hide Inv, Leads, Next, Enabled, Merged, Between, StopsAt;
      r := CopyPhase(copy, found, begin, keep);
      if r != Completed { return; }
      var ok := Attempt(finish(0));
      if !ok { return Failed; }
      SaveCopiedPhase();
      CopiedIsMerged(now);
      MergedAt(old(dst), old(src));
      ok := Finish(copy, known, told, finish, del);
      r := if ok then Completed else Failed;
    }

    static ghost predicate AllWork(n: nat, env: nat -> Fate) { forall j: nat :: j < n ==> env(j).Works? }

    /** Phase 1 goes through: every one of the `n` keys is copied to a target that is IMPORTING. */
    static ghost predicate CopyWorks(n: nat, importing: bool, begin: nat -> Fate, keep: nat -> Fate) {
      Opens(begin) && (n == 0 || importing || begin(3).Works?) && AllWork(n, keep)
    }

    /** What follows goes through. Clearing the flag may fail to be saved, and the journal may be left behind. */
    static ghost predicate FinishWorks(copy: bool, known: bool, n: nat, env: nat -> Fate, del: nat -> Fate) {
      if copy then env(1).Works? && !env(2).Crashes?
      else env(1).Works? && AllWork(n, del) && known && !env(2).Crashes? && env(3).Works? && env(4).Works? && !env(5).Crashes?
    }

    /** Recovery goes through, by the phase it starts from. */
    static ghost predicate RecoveryWorks(j: Journal, known: bool, n: nat, abort: Fate, env: nat -> Fate, del: nat -> Fate) {
      if j.phase.Done? then env(0).Works?
      else if j.phase.Init? || j.phase.Copying? then !abort.Crashes? && !env(0).Crashes? && env(1).Works?
      else (j.copy || AllWork(n, del)) && known && !env(0).Crashes? && env(1).Works? && env(3).Works?
    }

    /** The `i`-th copy is the first that does not work, and reports an error. */
    static ghost predicate StopsAt(n: nat, keep: nat -> Fate, i: nat) {
      i < n && (forall j: nat :: j < i ==> keep(j).Works?) && keep(i).Errors?
    }

    /** Phase 1: the guards and then every key, or an abort that cleans the target as far as it gets. */
    method CopyPhase(copy: bool, found: bool, begin: nat -> Fate, keep: nat -> Fate) returns (r: Ended)
      requires Valid() && now.work.Idle?
      modifies this
      ensures Valid() && first == old(first) && old(log) <= log && src == old(src) && Between(old(dst), src, dst)
      ensures r == Completed <==> r != Refused && CopyWorks(|old(src)|, old(importing), begin, keep)
      ensures r == Refused <==> !(old(config) == Config(true, Source) && (old(journal).None? || Closed(old(now))) && found)
      ensures r == Refused ==> now == old(now)
      ensures r == Failed ==> now.work.Idle?
      ensures r == Completed ==>
                now.work == Transfer([]) && now.journal == Some(Journal(Copying, copy)) &&
                Quiet(now.trace, old(src), old(dst)) && config == Config(true, Source)
      ensures forall i: nat :: r != Refused && Opens(begin) && (old(importing) || begin(3).Works?) && StopsAt(|src|, keep, i) ==>
                r == Failed && dst.Keys <= keep(i).survivors && (keep(i).stable ==> !importing)
      ensures r != Refused && Opens(begin) && !old(importing) && !begin(3).Works? && |src| > 0 && keep(0).Works? ==>
                r == Failed && dst == map[] && !importing
    {
      hide Inv, Leads, Next, Enabled, Between, Keys, Lists;
      var keys;
      r, keys := BeginCopy(copy, found, begin);
      BetweenSelf(dst, src);
      if r != Completed { return; }
      ListSize(keys, src);
      assert Keys(keys) == src.Keys by { ListedKeys(keys, src); }
      var ok;
      ghost var at;
      ok, at := CopyKeys(keys, keep);
      r := if ok then Completed else Failed;
    }

    /** The rest after COPIED; the journal is dropped as a last, optional step. */
    method Finish(copy: bool, known: bool, told: bool, env: nat -> Fate, del: nat -> Fate) returns (ok: bool)
      requires Valid() && now.work.Transferred? && CopyOnly(now) == copy && config == Config(true, Source)
      modifies this
      ensures Valid() && first == old(first) && old(log) <= log && now.work.Idle?
      ensures ok <==> FinishWorks(copy, known, |old(src)|, env, del)
      ensures dst == old(dst) && (copy ==> src == old(src))
      ensures ok && copy ==> config == Config(false, Source)
      ensures ok && !copy ==> src == map[] && config.owner == Target
    {
      hide Inv, Leads, Next, Enabled;
      if copy {
        ok := FinishCopy((n: nat) => env(n + 1));
      } else {
        ok := CommitPhase(known, told, (n: nat) => env(n + 1), del);
        if ok { ok := CleanUp(env(5)); }
      }
    }

    method CleanUp(f: Fate) returns (ok: bool)
      requires Valid() && now.work.Finishing?
      modifies this
      ensures Valid() && first == old(first) && old(log) <= log && now.work.Idle?
      ensures ok <==> !f.Crashes?
      ensures f.Works? ==> journal.None?
      ensures src == old(src) && dst == old(dst)
      ensures ok ==> src == old(src) && dst == old(dst) && config == old(config)
    {
      hide Inv, Leads;
      ok := !f.Crashes?;
      if f.Works? {
        DeleteJournal();
      } else if ok {
        Record(Fail);
      } else {
        Restart();
      }
    }

    // ------------------------------------------------------------------ recovery

    method Resume(keys: seq<Key>)
      requires Valid() && Enabled(now, Recover(keys))
      modifies this
      ensures Valid() && first == old(first) && old(log) <= log
      ensures now == old(now).(work := ResumeAt(old(now), keys))
    {
      hide Inv, Leads, Lists;
      Record(Recover(keys));
    }

    /** The target is asked to drop its keys of the slot and to leave IMPORTING. */
    method AbortTarget(survivors: set<Key>, stable: bool)
      requires Valid() && now.work.Undoing?
      modifies this
      ensures Valid() && first == old(first) && old(log) <= log
      ensures src == old(src) && importing == (old(importing) && !stable)
      ensures now == old(now).(dst := dst, importing := importing, work := Undoing(true))
      ensures forall k :: Get(dst, k) == if k in survivors then Get(old(dst), k) else None
    {
      hide Inv, Leads, Only;
      OnlyAt(dst, survivors);
      dst := Only(dst, survivors);
      importing := importing && !stable;
      Record(UndoTarget(survivors, stable));
    }

    method ClearAfterUndo(saves: bool)
      requires Valid() && now.work.Undoing?
      modifies this
      ensures Valid() && first == old(first) && old(log) <= log
      ensures config == Config(false, old(config.owner)) && saved == (if saves then config else old(saved))
      ensures SameStores(old(src), old(dst), old(importing))
      ensures now == Cleared(old(now), saves).(work := Undone)
    {
      hide Inv, Leads, Next, Enabled;
      InvWellFormed(now);
      UndoClearShape(now, saves);
      config := Config(false, config.owner);
      if saves { saved := config; }
      Record(UndoClear(saves));
    }

    /** The target is cleaned up if it can be reached. */
    method CleanTarget(abort: Fate) returns (go: bool)
      requires Valid() && now.work == Undoing(false)
      modifies this
      ensures Valid() && first == old(first) && old(log) <= log
      ensures go == !abort.Crashes? && src == old(src)
      ensures if go then now.work.Undoing? && now.src == old(now.src) && now.owner == old(now.owner) else now.work.Idle?
      ensures go ==> Remains(old(dst), old(importing), abort, dst, importing)
    {
      hide Inv, Leads, Next, Enabled;
      go := !abort.Crashes?;
      if abort.Works? {
        AbortTarget({}, true);
        assert forall k :: k in dst ==> Get(dst, k) != None;
      } else if abort.Crashes? {
        Restart();
      } else if abort.ran {
        AbortTarget(abort.survivors, abort.stable);
      }
    }

    /** INIT or COPYING: the target is cleaned, the flag cleared, the journal dropped. */
    method RollBack(abort: Fate, clear: Fate, drop: Fate) returns (ok: bool)
      requires Valid() && now.work == Undoing(false)
      modifies this
      ensures Valid() && first == old(first) && old(log) <= log && now.work.Idle?
      ensures ok <==> !abort.Crashes? && !clear.Crashes? && drop.Works?
      ensures src == old(src) && (ok ==> !config.migrating && Remains(old(dst), old(importing), abort, dst, importing))
      ensures ok ==> now.journal.None? && now.src == old(now.src) && now.owner == old(now.owner)
    {
      hide Inv, Leads, Next, Enabled, Remains;
      ok := CleanTarget(abort);
      if !ok { return; }
      if clear.Crashes? {
        Restart();
        return false;
      }
      ClearAfterUndo(clear.Works?);
      ok := Attempt(drop);
      if ok { DeleteJournal(); }
    }

    /** The end of phase 2: a failure to record DONE is ignored, the journal is deleted all the same. */
    method HandOver(known: bool, env: nat -> Fate) returns (ok: bool)
      requires Valid() && now.work.Deleting? && |now.work.todo| == 0
      modifies this
      ensures Valid() && first == old(first) && old(log) <= log && now.work.Idle?
      ensures ok <==> known && !env(0).Crashes? && env(1).Works? && env(3).Works?
      ensures src == old(src) && dst == old(dst)
      ensures ok ==> now.journal.None? && now.owner == Target && now.dst == old(now.dst) && now.src == old(now.src)
    {
      hide Inv, Leads, Next, Enabled;
      ok := SwitchOwner(known, env(0), env(1));
      if !ok { return; }
      if env(2).Works? { SaveDonePhase(false); }
      ok := Attempt(env(3));
      if ok { DeleteJournal(); }
    }

    /** COPIED or COMMIT: phase 2 again; a copy-only journal skips the deletion but not the handover. */
    method RetryCommit(known: bool, keys: seq<Key>, env: nat -> Fate, del: nat -> Fate) returns (ok: bool)
      requires Valid() && now.work == Deleting(keys, true) && (|keys| == 0 || src.Keys <= Keys(keys))
      modifies this
      ensures Valid() && first == old(first) && old(log) <= log && now.work.Idle?
      ensures ok <==> AllWork(|keys|, del) && known && !env(0).Crashes? && env(1).Works? && env(3).Works?
      ensures dst == old(dst)
      ensures ok ==> now.journal.None? && now.owner == Target && now.dst == old(now.dst) &&
                     now.src == if |keys| == 0 then old(now.src) else map[]
    {
      hide Inv, Leads, Next, Enabled, Keys;
      if |keys| > 0 {
        ok := DeleteKeys(keys, del);
        if !ok { return; }
      }
      ok := HandOver(known, env);
    }

    /** A journal that is DONE is only dropped. */
    method Retire(f: Fate) returns (ok: bool)
      requires Valid() && now.work.Finishing?
      modifies this
      ensures Valid() && first == old(first) && old(log) <= log && now.work.Idle?
      ensures ok == f.Works?
      ensures ok ==> journal.None? && src == old(src) && dst == old(dst) && config == old(config)
    {
      hide Inv, Leads, Next, Enabled;
      ok := Attempt(f);
      if ok { DeleteJournal(); }
    }

    /**
      RecoverSlotMigrations for this slot. When it completes, the stores and the owner are what
      the journal promised, however often it was cut short before.
     */
    method RecoverSlotMigration(known: bool, abort: Fate, env: nat -> Fate, del: nat -> Fate) returns (r: Ended)
      requires Valid() && now.work.Idle?
      modifies this
      ensures Valid() && first == old(first) && old(log) <= log && now.work.Idle?
      ensures r == Completed <==> old(journal).Some? && RecoveryWorks(old(journal).value, known, |old(src)|, abort, env, del)
      ensures r == Completed && Early(old(now)) ==> src == old(src) && config == Config(false, Source)
      ensures r == Completed && Early(old(now)) ==> Remains(old(dst), old(importing), abort, dst, importing)
      ensures r == Completed && Late(old(now)) ==>
                dst == old(dst) && config.owner == Target && src == if CopyOnly(old(now)) then old(src) else map[]
      ensures r == Completed && Closed(old(now)) ==> src == old(src) && dst == old(dst) && config == old(config)
      ensures r == Refused <==> old(journal).None?
      ensures r == Completed ==> journal.None?
      ensures r == Completed && (abort.Works? || (abort.Errors? && !abort.ran)) ==>
                Placement(src, dst, config.owner) == Settled(old(now), abort.Works?)
    {
      hide Inv, Leads, Next, Enabled, Settled;
      if journal.None? { return Refused; }
      SettledIs(now, abort.Works?);
      var ok;
      if journal.value.phase.Done? {
        ok := RecoverDone(env);
      } else if journal.value.phase.Init? || journal.value.phase.Copying? {
        ok := RecoverEarly(abort, env);
      } else {
        ok := RecoverLate(known, env, del);
      }
      r := if ok then Completed else Failed;
    }

    method RecoverDone(env: nat -> Fate) returns (ok: bool)
      requires Valid() && now.work.Idle? && Closed(now)
      modifies this
      ensures Valid() && first == old(first) && old(log) <= log && now.work.Idle?
      ensures ok == env(0).Works?
      ensures ok ==> journal.None? && src == old(src) && dst == old(dst) && config == old(config)
    {
      hide Inv, Leads, Next, Enabled, Keys;
      var keys := RelistKeys();
      Resume(keys);
      ok := Retire(env(0));
    }

    /** INIT or COPYING is rolled back. */
    method RecoverEarly(abort: Fate, env: nat -> Fate) returns (ok: bool)
      requires Valid() && now.work.Idle? && Early(now)
      modifies this
      ensures Valid() && first == old(first) && old(log) <= log && now.work.Idle?
      ensures ok <==> !abort.Crashes? && !env(0).Crashes? && env(1).Works?
      ensures ok ==> journal.None? && src == old(src) && config == Config(false, Source)
      ensures ok ==> Remains(old(dst), old(importing), abort, dst, importing)
    {
      hide Inv, Leads, Next, Enabled, Keys, Remains;
      var keys := RelistKeys();
      Resume(keys);
      OwnerWhileEarly(now);
      ok := RollBack(abort, env(0), env(1));
    }

    /** COPIED or COMMIT is carried through. */
    method RecoverLate(known: bool, env: nat -> Fate, del: nat -> Fate) returns (ok: bool)
      requires Valid() && now.work.Idle? && Late(now)
      modifies this
      ensures Valid() && first == old(first) && old(log) <= log && now.work.Idle?
      ensures ok <==> (CopyOnly(old(now)) || AllWork(|old(src)|, del)) && known && !env(0).Crashes? && env(1).Works? && env(3).Works?
      ensures ok ==> journal.None? && dst == old(dst) && config.owner == Target && src == if CopyOnly(old(now)) then old(src) else map[]
    {
      hide Inv, Leads, Next, Enabled, Keys;
      var keys := RelistKeys();
      Resume(keys);
      EmptyListing(src, keys);
      ok := RetryCommit(known, keys, env, del);
    }

    /** The keys phase 2 has to delete: none for a copy. */
    method RelistKeys() returns (keys: seq<Key>)
      requires Valid() && now.work.Idle? && journal.Some?
      ensures Enabled(now, Recover(keys)) && (if CopyOnly(now) then |keys| == 0 else Keys(keys) == src.Keys && |keys| == |src|)
    {
      hide Inv, Leads;
      if journal.value.copy { return []; }
      keys := CollectSlotKeys();
      ListSize(keys, src);
    }
  }
}
