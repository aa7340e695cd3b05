/**
  Crash-safe migration of one slot as a state machine. The stores hold the slot's keys on
  each side and the journal is written through. The MIGRATING flag and the slot's owner live
  in the source's memory, with the copies last saved to its configuration; a crash goes back
  to those. `work` is where the running process is.
 */
module Migration {
  import opened Basics

  type Key = Bytes
  type Store = map<Key, Bytes>

  datatype Phase = Init | Copying | Copied | Commit | Done

  datatype Journal = Journal(phase: Phase, copy: bool)

  datatype Owner = Source | Target

  datatype Work =
    | Idle
    | Opening(todo: seq<Key>)
    | Transfer(todo: seq<Key>)
    | Transferred
    | Deleting(todo: seq<Key>, recovering: bool)
    | Assigning
    | Switched
    | CopyDone
    | Undoing(cleaned: bool)
    | Undone
    | Finishing

  /**
    What has happened since the migration listed the slot. `orig` and `prior` are the two stores as
    they were then and `gone` the keys that have left the source by expiry or by a client. `sent` holds
    the values the target has been sent and `found` what it already had for them. `since` holds the
    values clients have written on the source after the migration last read the key, `over` what they
    have done to a key on the target after it was sent. `routed` and `slipped` are the keys clients have
    written on either side, by commands the fence is for and by the others.
   */
  datatype Trace = Trace(orig: Store, prior: Store, gone: set<Key>, sent: Store, found: Store, since: Store,
                         over: map<Key, Option<Bytes>>, routed: set<Key>, slipped: set<Key>)

  /** `fenced` records that the MIGRATING flag has been set ever since the listing. */
  datatype State = State(src: Store, dst: Store, journal: Option<Journal>, importing: bool,
                         migrating: bool, owner: Owner, savedMigrating: bool, savedOwner: Owner,
                         work: Work, fenced: bool, trace: Trace)

  /**
    How a client writes: by a key-routed command, by RESTORE, which both fences let through, or past
    every gate, in a transaction or by a command that names no key. No value is a deletion.
   */
  datatype How = Routed | Restoring | Ungated

  /** How the copy of one key ends. On an error the target is asked to drop its slot keys. */
  datatype CopyFate =
    | Restored
    | DumpFails(survivors: set<Key>, stable: bool)
    | RestoreFails(ran: bool, survivors: set<Key>, stable: bool)

  datatype Event =
    | SetMigrating(saved: bool)
    | Write(at: Owner, how: How, key: Key, value: Option<Bytes>)
    | Stable(saved: bool)
    | Expire(key: Key)
    | Start(copy: bool, todo: seq<Key>)
    | SaveCopying
    | MarkImporting
    | CopyKey(fate: CopyFate)
    | SaveCopied
    | SaveCommit(todo: seq<Key>)
    | DeleteKey
    | ClearFlag(saved: bool)
    | Assign(known: bool, saved: bool)
    | SaveDone(told: bool)
    | ClearCopy(saved: bool)
    | DropJournal
    | Recover(todo: seq<Key>)
    | UndoTarget(survivors: set<Key>, stable: bool)
    | UndoClear(saved: bool)
    | SaveConfig
    | Fail
    | Crash

  function Keys(todo: seq<Key>): set<Key> { set k | k in todo }

  /** The listing a key scan returns: every key once. */
  ghost predicate Lists(todo: seq<Key>, s: Store) {
    Keys(todo) == s.Keys && NoRepeats(todo)
  }

  /** RESTORE without REPLACE: a key already there keeps its value. */
  function Restore(dst: Store, k: Key, v: Bytes): Store {
    if k in dst then dst else dst[k := v]
  }

  /** A store's value of a key, and its change by a client. */
  function Get(s: Store, k: Key): Option<Bytes> { if k in s then Some(s[k]) else None }

  function Put(s: Store, k: Key, v: Option<Bytes>): Store { if v.Some? then s[k := v.value] else s - {k} }

  function Only(s: Store, keys: set<Key>): Store { map k | k in s && k in keys :: s[k] }

  /** The journal is in phase 1, owes phase 2, or is closed. */
  predicate Early(s: State) { s.journal.Some? && (s.journal.value.phase.Init? || s.journal.value.phase.Copying?) }

  predicate Late(s: State) { s.journal.Some? && (s.journal.value.phase.Copied? || s.journal.value.phase.Commit?) }

  predicate Closed(s: State) { s.journal.Some? && s.journal.value.phase.Done? }

  predicate CopyOnly(s: State) { s.journal.Some? && s.journal.value.copy }

  predicate WellFormed(s: State) { !s.work.Idle? ==> s.journal.Some? }

  /**
    What the client gates let through. A routed write needs the owner, and on the source a slot that
    is not on the move; RESTORE is let in by ASKING to an importing target and on a migrating source
    for a key that is there.
   */
  predicate Admits(s: State, at: Owner, how: How, k: Key, v: Option<Bytes>) {
    match how
    case Routed => s.owner == at && (at == Source ==> !s.migrating)
    case Restoring =>
      v.Some? && if at == Source then s.owner == Source && (s.migrating ==> k in s.src) else s.importing || s.owner == Target
    case Ungated => true
  }

  ghost predicate Enabled(s: State, e: Event)
    requires WellFormed(s)
  {
    match e
    case SetMigrating(_) => s.owner == Source
    case Write(at, how, k, v) => Admits(s, at, how, k, v)
    case Stable(_) => true
    case Expire(key) => key in s.src
    case Start(_, todo) =>
      s.work.Idle? && s.migrating && s.owner == Source && (s.journal.None? || Closed(s)) && Lists(todo, s.src)
    case SaveCopying => s.work.Opening?
    case MarkImporting => s.work.Transfer?
    // a target that is not IMPORTING answers MOVED, so the restore cannot succeed
    case CopyKey(fate) => s.work.Transfer? && |s.work.todo| > 0 && (fate.Restored? ==> s.importing)
    case SaveCopied => s.work.Transfer? && |s.work.todo| == 0
    case SaveCommit(todo) => s.work.Transferred? && !CopyOnly(s) && Lists(todo, s.src)
    case DeleteKey => s.work.Deleting? && |s.work.todo| > 0
    case ClearFlag(_) => s.work.Deleting? && |s.work.todo| == 0
    case Assign(_, _) => s.work.Assigning?
    case SaveDone(_) => s.work.Switched? || (s.work.Transferred? && CopyOnly(s))
    case ClearCopy(_) => s.work.CopyDone?
    case DropJournal => s.work.Finishing? || s.work.Undone? || s.work.Switched?
    case Recover(todo) => s.work.Idle? && s.journal.Some? && (if CopyOnly(s) then |todo| == 0 else Lists(todo, s.src))
    case UndoTarget(_, _) => s.work.Undoing?
    case UndoClear(_) => s.work.Undoing?
    case SaveConfig => true
    case Fail => true
    case Crash => true
  }

  function SetPhase(s: State, p: Phase): State
    requires s.journal.Some?
  {
    s.(journal := Some(s.journal.value.(phase := p)))
  }

  /** abortTargetImport, best effort on both counts. */
  function AbortTarget(s: State, survivors: set<Key>, stable: bool): State {
    s.(dst := Only(s.dst, survivors), importing := s.importing && !stable)
  }

  /** The target's store after the copy of `k`, aborted or not. */
  function CopyTo(s: State, k: Key, fate: CopyFate): Store {
    if k !in s.src then s.dst
    else match fate
      case Restored => Restore(s.dst, k, s.src[k])
      case DumpFails(survivors, _) => Only(s.dst, survivors)
      case RestoreFails(ran, survivors, _) =>
        Only(if ran then Restore(s.dst, k, s.src[k]) else s.dst, survivors)
  }

  /** The migration reads `k` on the source and finds the target's store as it is. */
  function Sent(t: Trace, k: Key, v: Bytes, dst: Store): Trace {
    t.(sent := t.sent[k := v], found := Put(t.found, k, Get(dst, k)), since := t.since - {k}, over := t.over - {k})
  }

  function CopyKeyStep(s: State, fate: CopyFate): State
    requires s.work.Transfer? && |s.work.todo| > 0
  {
    var k := s.work.todo[0];
    var goesOn := k !in s.src || fate.Restored?;
    s.(dst := CopyTo(s, k, fate),
       trace := if k in s.src && fate.Restored? then Sent(s.trace, k, s.src[k], s.dst) else s.trace,
       importing := s.importing && (goesOn || !fate.stable),
       work := if goesOn then Transfer(s.work.todo[1..]) else Idle)
  }

  /** Where recovery takes up, by the journal's phase. */
  function ResumeAt(s: State, todo: seq<Key>): Work {
    if Closed(s) then Finishing else if Early(s) then Undoing(false) else Deleting(todo, true)
  }

  /** The configuration is saved, or the attempt fails. */
  function Saved(s: State, ok: bool): State {
    s.(savedMigrating := if ok then s.migrating else s.savedMigrating,
       savedOwner := if ok then s.owner else s.savedOwner)
  }

  /** ClearSlotMigration: a failure to save is ignored. */
  function Cleared(s: State, ok: bool): State {
    s.(migrating := false, fenced := false, savedMigrating := s.savedMigrating && !ok,
       savedOwner := if ok then s.owner else s.savedOwner)
  }

  /** AssignSlot fails on an unknown target, and when it cannot save. */
  function AssignStep(s: State, known: bool, saved: bool): State {
    var ok := known && saved;
    s.(migrating := false, fenced := false, owner := if known then Target else s.owner,
       savedMigrating := s.savedMigrating && !ok, savedOwner := if ok then Target else s.savedOwner,
       work := if ok then Switched else Idle)
  }

  function Begin(src: Store, dst: Store): Trace { Trace(src, dst, {}, map[], map[], map[], map[], {}, {}) }

  function Lost(t: Trace, k: Key): Trace { t.(gone := t.gone + {k}) }

  function Noted(t: Trace, how: How, k: Key): Trace {
    if how.Routed? then t.(routed := t.routed + {k}) else t.(slipped := t.slipped + {k})
  }

  /** A client's write on the source; a deletion leaves nothing to remember but the loss. */
  function OnSource(t: Trace, k: Key, v: Option<Bytes>): Trace {
    if v.Some? then t.(since := t.since[k := v.value]) else Lost(t.(since := t.since - {k}), k)
  }

  function OnTarget(t: Trace, k: Key, v: Option<Bytes>): Trace { t.(over := t.over[k := v]) }

  function WriteStep(s: State, at: Owner, how: How, k: Key, v: Option<Bytes>): State {
    if at == Source then s.(src := Put(s.src, k, v), trace := Noted(OnSource(s.trace, k, v), how, k))
    else s.(dst := Put(s.dst, k, v), trace := Noted(OnTarget(s.trace, k, v), how, k))
  }

  ghost function Next(s: State, e: Event): State
    requires WellFormed(s) && Enabled(s, e)
  {
    match e
    case SetMigrating(saved) => Saved(s.(migrating := true), saved)
    case Write(at, how, k, v) => WriteStep(s, at, how, k, v)
    // SETSLOT STABLE, or a gossip entry that lists the slot
    case Stable(saved) => Cleared(s, saved)
    case Expire(k) => s.(src := s.src - {k}, trace := Lost(s.trace, k))
    case Start(copy, todo) =>
      s.(journal := Some(Journal(Init, copy)), work := Opening(todo), trace := Begin(s.src, s.dst), fenced := true)
    case SaveCopying => SetPhase(s, Copying).(work := Transfer(s.work.todo))
    case MarkImporting => s.(importing := true)
    case CopyKey(fate) => CopyKeyStep(s, fate)
    case SaveCopied => SetPhase(s, Copied).(work := Transferred)
    case SaveCommit(todo) => SetPhase(s, Commit).(work := Deleting(todo, false))
    case DeleteKey =>
      s.(src := s.src - {s.work.todo[0]}, work := Deleting(s.work.todo[1..], s.work.recovering))
    case ClearFlag(saved) => Cleared(s, saved).(work := Assigning)
    case Assign(known, saved) => AssignStep(s, known, saved)
    case SaveDone(told) =>
      SetPhase(s, Done).(work := if s.work.Switched? then Finishing else CopyDone,
                         importing := s.importing && !(s.work.Switched? && told))
    case ClearCopy(saved) => Cleared(s, saved).(work := Idle)
    case DropJournal => s.(journal := None, work := Idle)
    case Recover(todo) => s.(work := ResumeAt(s, todo))
    case UndoTarget(survivors, stable) => AbortTarget(s, survivors, stable).(work := Undoing(true))
    case UndoClear(saved) => Cleared(s, saved).(work := Undone)
    case SaveConfig => Saved(s, true)
    case Fail => s.(work := Idle)
    case Crash =>
      s.(work := Idle, migrating := s.savedMigrating, owner := s.savedOwner, fenced := s.fenced && s.savedMigrating)
  }

  /** Both sides before any migration. */
  ghost predicate Initial(s: State) {
    s.journal.None? && s.work.Idle? && s.owner == Source && s.savedOwner == Source && !s.fenced &&
    s.trace == Begin(s.src, s.dst)
  }

  // -------------------------------------------------------------- the invariant

  /** What the target holds once every key of `moved` has been restored over `prior`. */
  function Merged(prior: Store, moved: Store): Store { moved + prior }

  ghost predicate PastCopy(s: State) {
    Late(s) || s.owner == Target
  }

  /** The process is where the journal says it should be. */
  ghost predicate WorkInv(s: State) {
    && (s.work.Opening? ==> Early(s) && ToCopy(s.dst, s.trace, s.work.todo))
    && (s.work.Transfer? ==> Early(s) && ToCopy(s.dst, s.trace, s.work.todo))
    && (s.work.Transferred? ==> Late(s) && s.owner == Source)
    && (s.work.Deleting? ==> Late(s) && (s.work.recovering || !CopyOnly(s)) && (CopyOnly(s) ==> |s.work.todo| == 0))
    && (s.work.Assigning? ==> Late(s))
    && (s.work.Switched? ==> Late(s) && s.owner == Target && s.savedOwner == Target)
    && (s.work.CopyDone? ==> Closed(s) && CopyOnly(s))
    && (s.work.Undoing? || s.work.Undone? ==> Early(s))
    && (s.work.Finishing? ==> Closed(s))
  }

  /** Every key that has not left the source has been sent, those of `later` excepted. */
  predicate AllSent(t: Trace, later: set<Key>) { t.orig.Keys - t.gone - later <= t.sent.Keys }

  ghost predicate ToCopy(dst: Store, t: Trace, todo: seq<Key>) {
    Keys(todo) <= t.orig.Keys - t.sent.Keys && NoRepeats(todo) && AllSent(t, Keys(todo)) && TargetIs(dst, t)
  }

  /** The target's value of a key: a client's last word since it was sent, else what was found there, else what was sent. */
  function Expected(t: Trace, k: Key): Option<Bytes> {
    if k in t.over then t.over[k]
    else if k in t.found then Some(t.found[k])
    else if k in t.sent then Some(t.sent[k])
    else Get(t.prior, k)
  }

  ghost predicate TargetIs(dst: Store, t: Trace) {
    t.found.Keys <= t.sent.Keys && forall k :: Get(dst, k) == Expected(t, k)
  }

  /** The source's value of a key: what a client wrote since the migration read it, else what was sent, else the first. */
  ghost predicate SourceIs(src: Store, t: Trace) {
    forall k :: k in src ==>
      if k in t.since then src[k] == t.since[k]
      else if k in t.sent then src[k] == t.sent[k]
      else k in t.orig && k !in t.gone && src[k] == t.orig[k]
  }

  function Touched(t: Trace): set<Key> { t.routed + t.slipped }

  /** A key no client has written: what was sent is what the source began with, over what the target began with. */
  ghost predicate Untouched(t: Trace, k: Key) {
    && k !in t.since && k !in t.over
    && (k in t.sent ==> Get(t.orig, k) == Some(t.sent[k]) && Get(t.found, k) == Get(t.prior, k))
  }

  ghost predicate TouchInv(t: Trace) { forall k :: k !in Touched(t) ==> Untouched(t, k) }

  ghost predicate NoRepeats(todo: seq<Key>) { forall i, j :: 0 <= i < j < |todo| ==> todo[i] != todo[j] }

  predicate Holds(s: Store, keys: set<Key>) { keys <= s.Keys }

  ghost predicate Inv(s: State) {
    && WellFormed(s)
    && WorkInv(s)
    && OwnerInv(s)
    // phase 1, and a migration that only copies, leave the source alone
    && (!PastCopy(s) || CopyOnly(s) ==> Holds(s.src, s.trace.orig.Keys - s.trace.gone))
    // from COPIED on nothing is left to send, and the target holds what was sent but for what clients did to it
    && (PastCopy(s) ==> TargetIs(s.dst, s.trace) && AllSent(s.trace, {}))
    && SourceIs(s.src, s.trace) && TouchInv(s.trace)
    // the fence stops every routed write
    && (s.fenced ==> s.migrating && s.owner == Source && s.trace.routed == {})
  }

  /** The slot changes hands only in phase 2, and a crash can undo that only while the journal says so. */
  ghost predicate OwnerInv(s: State) {
    && (s.owner == Target ==> s.savedOwner == Target || Late(s))
    && (s.savedOwner == Target ==> s.owner == Target)
    && (Early(s) ==> s.owner == Source)
    && (Closed(s) && !CopyOnly(s) ==> s.owner == Target)
  }

  lemma NoKeys()
    ensures Keys([]) == {}
  {}

  lemma KeysSplit(todo: seq<Key>)
    requires |todo| > 0 && NoRepeats(todo)
    ensures todo[0] in Keys(todo) && NoRepeats(todo[1..]) && Keys(todo[1..]) == Keys(todo) - {todo[0]}
  {}

  lemma TargetSent(dst: Store, t: Trace, k: Key, v: Bytes)
    requires TargetIs(dst, t)
    ensures TargetIs(Restore(dst, k, v), Sent(t, k, v, dst))
  {
    var t' := Sent(t, k, v, dst);
    forall j ensures Get(Restore(dst, k, v), j) == Expected(t', j) { assert Get(dst, j) == Expected(t, j); }
  }

  lemma SourceSent(src: Store, t: Trace, k: Key, dst: Store)
    requires SourceIs(src, t) && k in src
    ensures SourceIs(src, Sent(t, k, src[k], dst))
  {}

  lemma TouchSent(src: Store, dst: Store, t: Trace, k: Key)
    requires TouchInv(t) && SourceIs(src, t) && TargetIs(dst, t) && k in src && k !in t.sent
    ensures TouchInv(Sent(t, k, src[k], dst))
  {
    var t' := Sent(t, k, src[k], dst);
    forall j | j !in Touched(t') ensures Untouched(t', j) {
      assert Untouched(t, j);
      if j == k { assert Get(dst, k) == Expected(t, k); }
    }
  }

  /** One key fewer to copy: it has been sent, or it is gone. */
  lemma OneCopied(src: Store, dst: Store, t: Trace, todo: seq<Key>)
    requires |todo| > 0 && ToCopy(dst, t, todo) && SourceIs(src, t) && TouchInv(t) && Holds(src, t.orig.Keys - t.gone)
    ensures var k := todo[0];
            if k in src then
              var t' := Sent(t, k, src[k], dst);
              ToCopy(Restore(dst, k, src[k]), t', todo[1..]) && SourceIs(src, t') && TouchInv(t')
            else ToCopy(dst, t, todo[1..])
  {
    var k := todo[0];
    KeysSplit(todo);
    if k in src {
      TargetSent(dst, t, k, src[k]);
      SourceSent(src, t, k, dst);
      TouchSent(src, dst, t, k);
    }
    hide Keys, NoRepeats, TargetIs, SourceIs, TouchInv, Restore;
  }

  lemma CopyKeyInv(s: State, fate: CopyFate)
    requires Inv(s) && Enabled(s, CopyKey(fate))
    ensures Inv(Next(s, CopyKey(fate)))
  {
    OneCopied(s.src, s.dst, s.trace, s.work.todo);
    hide TargetIs, SourceIs, TouchInv, ToCopy, Restore, Only;
  }

  /** What an abort leaves of the target: the keys among the survivors, with the values they had or one just sent. */
  ghost predicate Cleaned(was: Store, key: Key, sent: Option<Bytes>, survivors: set<Key>, dst: Store) {
    forall k :: Get(dst, k) == if k !in survivors then None else if k == key && k !in was then sent else Get(was, k)
  }

  /**
    A copy changes one key of the target, and only if the key is not there; an aborted one leaves the
    survivors of the clean-up, and IMPORTING only if STABLE did not arrive. The source is not touched.
   */
  lemma CopyExact(s: State, fate: CopyFate)
    requires WellFormed(s) && Enabled(s, CopyKey(fate)) && s.work.todo[0] in s.src
    ensures var k, s' := s.work.todo[0], Next(s, CopyKey(fate));
            s'.src == s.src &&
            match fate
            case Restored =>
              s'.importing == s.importing && s'.work == Transfer(s.work.todo[1..]) &&
              forall j :: Get(s'.dst, j) == if j == k && j !in s.dst then Some(s.src[k]) else Get(s.dst, j)
            case DumpFails(survivors, stable) =>
              Cleaned(s.dst, k, None, survivors, s'.dst) && s'.importing == (s.importing && !stable) && s'.work.Idle?
            case RestoreFails(ran, survivors, stable) =>
              Cleaned(s.dst, k, if ran then Some(s.src[k]) else None, survivors, s'.dst) &&
              s'.importing == (s.importing && !stable) && s'.work.Idle?
  {}

  lemma SourceShrinks(src: Store, t: Trace, k: Key)
    requires SourceIs(src, t)
    ensures SourceIs(src - {k}, t) && SourceIs(src - {k}, Lost(t, k))
  {}

  lemma LostKeeps(dst: Store, t: Trace, k: Key)
    ensures TargetIs(dst, t) ==> TargetIs(dst, Lost(t, k))
    ensures TouchInv(t) ==> TouchInv(Lost(t, k))
  {
    assert forall j :: Expected(Lost(t, k), j) == Expected(t, j);
    assert forall j :: Untouched(t, j) ==> Untouched(Lost(t, k), j);
  }

  lemma ExpireInv(s: State, k: Key)
    requires Inv(s) && Enabled(s, Expire(k))
    ensures Inv(Next(s, Expire(k)))
  {
    SourceShrinks(s.src, s.trace, k);
    LostKeeps(s.dst, s.trace, k);
    hide Lists, Keys, NoRepeats, TargetIs, SourceIs, TouchInv;
  }

  // ------------------------------------------------------------ a client's write

  lemma SourceWritten(src: Store, dst: Store, t: Trace, how: How, k: Key, v: Option<Bytes>)
    ensures SourceIs(src, t) ==> SourceIs(Put(src, k, v), Noted(OnSource(t, k, v), how, k))
    ensures TargetIs(dst, t) ==> TargetIs(dst, Noted(OnSource(t, k, v), how, k))
  {
    var t' := Noted(OnSource(t, k, v), how, k);
    assert forall j :: Expected(t', j) == Expected(t, j);
  }

  lemma TargetWritten(src: Store, dst: Store, t: Trace, how: How, k: Key, v: Option<Bytes>)
    ensures SourceIs(src, t) ==> SourceIs(src, Noted(OnTarget(t, k, v), how, k))
    ensures TargetIs(dst, t) ==> TargetIs(Put(dst, k, v), Noted(OnTarget(t, k, v), how, k))
  {
    var t' := Noted(OnTarget(t, k, v), how, k);
    assert forall j :: j != k ==> Expected(t', j) == Expected(t, j);
  }

  lemma WriteNoted(t: Trace, how: How, k: Key, v: Option<Bytes>)
    requires TouchInv(t)
    ensures TouchInv(Noted(OnSource(t, k, v), how, k)) && TouchInv(Noted(OnTarget(t, k, v), how, k))
  {
    var a, b := Noted(OnSource(t, k, v), how, k), Noted(OnTarget(t, k, v), how, k);
    forall j | j !in Touched(t) + {k} ensures Untouched(a, j) && Untouched(b, j) { assert Untouched(t, j); }
  }

  /** What a client's write leaves of the trace. */
  lemma WriteFacts(src: Store, t: Trace, how: How, k: Key, v: Option<Bytes>)
    ensures var a, b := Noted(OnSource(t, k, v), how, k), Noted(OnTarget(t, k, v), how, k);
            a.orig == b.orig == t.orig && a.sent == b.sent == t.sent && b.gone == t.gone && t.gone <= a.gone &&
            (!how.Routed? ==> a.routed == b.routed == t.routed) &&
            (Holds(src, t.orig.Keys - t.gone) ==> Holds(Put(src, k, v), a.orig.Keys - a.gone))
  {}

  lemma SourceWriteInv(s: State, how: How, k: Key, v: Option<Bytes>)
    requires Inv(s) && Admits(s, Source, how, k, v)
    ensures Inv(WriteStep(s, Source, how, k, v))
  {
    SourceWritten(s.src, s.dst, s.trace, how, k, v);
    WriteNoted(s.trace, how, k, v);
    WriteFacts(s.src, s.trace, how, k, v);
    hide Keys, NoRepeats, TargetIs, SourceIs, TouchInv, Noted, OnSource, Put, Holds;
  }

  lemma TargetWriteInv(s: State, how: How, k: Key, v: Option<Bytes>)
    requires Inv(s) && Admits(s, Target, how, k, v)
    ensures Inv(WriteStep(s, Target, how, k, v))
  {
    TargetWritten(s.src, s.dst, s.trace, how, k, v);
    WriteNoted(s.trace, how, k, v);
    WriteFacts(s.src, s.trace, how, k, v);
    hide Keys, NoRepeats, TargetIs, SourceIs, TouchInv, Noted, OnTarget, Put, Holds;
  }

  /** A client's write, fenced or not and on either side, is accounted for. */
  lemma WriteInv(s: State, at: Owner, how: How, k: Key, v: Option<Bytes>)
    requires Inv(s) && Enabled(s, Write(at, how, k, v))
    ensures Inv(Next(s, Write(at, how, k, v)))
  {
    hide Inv, Admits, WriteStep;
    match at
    case Source => SourceWriteInv(s, how, k, v);
    case Target => TargetWriteInv(s, how, k, v);
  }

  lemma StableInv(s: State, saved: bool)
    requires Inv(s) && Enabled(s, Stable(saved))
    ensures Inv(Next(s, Stable(saved)))
  {
    hide Lists, Holds, Keys, NoRepeats, TargetIs, SourceIs, TouchInv;
  }

  // ------------------------------------------------------------ the other steps

  lemma BeginInv(src: Store, dst: Store)
    ensures var t := Begin(src, dst); TargetIs(dst, t) && SourceIs(src, t) && TouchInv(t)
  {}

  lemma PhaseOneInv(s: State, e: Event)
    requires Inv(s) && Enabled(s, e)
    requires e.Start? || e.SaveCopying? || e.MarkImporting? || e.SaveCopied? || e.SetMigrating?
    ensures Inv(Next(s, e))
  {
    BeginInv(s.src, s.dst);
    NoKeys();
    hide TargetIs, SourceIs, TouchInv;
  }

  lemma DeleteKeyInv(s: State)
    requires Inv(s) && Enabled(s, DeleteKey)
    ensures Inv(Next(s, DeleteKey))
  {
    SourceShrinks(s.src, s.trace, s.work.todo[0]);
    hide Lists, Keys, NoRepeats, TargetIs, SourceIs, TouchInv;
  }

  lemma SaveCommitInv(s: State, todo: seq<Key>)
    requires Inv(s) && Enabled(s, SaveCommit(todo))
    ensures Inv(Next(s, SaveCommit(todo)))
  {
    hide Lists, Holds, Keys, Only, NoRepeats, TargetIs, SourceIs, TouchInv;
  }

  lemma AssignInv(s: State, known: bool, saved: bool)
    requires Inv(s) && Enabled(s, Assign(known, saved))
    ensures Inv(Next(s, Assign(known, saved)))
  {
    hide Lists, Holds, Keys, Only, NoRepeats, TargetIs, SourceIs, TouchInv;
  }

  lemma SaveDoneInv(s: State, told: bool)
    requires Inv(s) && Enabled(s, SaveDone(told))
    ensures Inv(Next(s, SaveDone(told)))
  {
    hide Lists, Holds, Keys, Only, NoRepeats, TargetIs, SourceIs, TouchInv;
  }

  lemma ClearFlagInv(s: State, saved: bool)
    requires Inv(s) && Enabled(s, ClearFlag(saved))
    ensures Inv(Next(s, ClearFlag(saved)))
  {
    hide Lists, Holds, Keys, Only, NoRepeats, TargetIs, SourceIs, TouchInv;
  }

  lemma ClearCopyInv(s: State, saved: bool)
    requires Inv(s) && Enabled(s, ClearCopy(saved))
    ensures Inv(Next(s, ClearCopy(saved)))
  {
    hide Lists, Holds, Keys, Only, NoRepeats, TargetIs, SourceIs, TouchInv;
  }

  lemma DropJournalInv(s: State)
    requires Inv(s) && Enabled(s, DropJournal)
    ensures Inv(Next(s, DropJournal))
  {
    hide Lists, Holds, Keys, Only, NoRepeats, TargetIs, SourceIs, TouchInv;
  }

  /** Only `work` decides between states that agree otherwise. */
  lemma WorkOnly(s: State, w: Work)
    requires Inv(s) && WorkInv(s.(work := w)) && WellFormed(s.(work := w))
    ensures Inv(s.(work := w))
  {
    hide WorkInv, Holds, TargetIs, SourceIs, TouchInv;
  }

  lemma RecoverInv(s: State, todo: seq<Key>)
    requires Inv(s) && Enabled(s, Recover(todo))
    ensures Inv(Next(s, Recover(todo)))
  {
    hide Lists, Inv;
    var w := ResumeAt(s, todo);
    assert WorkInv(s.(work := w)) by {
      if w.Deleting? { assert Late(s); }
    }
    WorkOnly(s, w);
  }

  lemma UndoTargetInv(s: State, survivors: set<Key>, stable: bool)
    requires Inv(s) && Enabled(s, UndoTarget(survivors, stable))
    ensures Inv(Next(s, UndoTarget(survivors, stable)))
  {
    hide Lists, Holds, Keys, Only, NoRepeats, TargetIs, SourceIs, TouchInv;
  }

  lemma UndoClearInv(s: State, saved: bool)
    requires Inv(s) && Enabled(s, UndoClear(saved))
    ensures Inv(Next(s, UndoClear(saved)))
  {
    hide Lists, Holds, Keys, Only, NoRepeats, TargetIs, SourceIs, TouchInv;
  }

  lemma SaveConfigInv(s: State)
    requires Inv(s) && Enabled(s, SaveConfig)
    ensures Inv(Next(s, SaveConfig))
  {
    hide Lists, Holds, Keys, Only, NoRepeats, TargetIs, SourceIs, TouchInv;
  }

  lemma FailInv(s: State)
    requires Inv(s) && Enabled(s, Fail)
    ensures Inv(Next(s, Fail))
  {
    hide Lists, Holds, Keys, Only, NoRepeats, TargetIs, SourceIs, TouchInv;
  }

  lemma CrashInv(s: State)
    requires Inv(s) && Enabled(s, Crash)
    ensures Inv(Next(s, Crash))
  {
    hide Lists, Holds, Keys, Only, NoRepeats, TargetIs, SourceIs, TouchInv;
  }

  /** Every step of a migration, of its recovery, of a client or a crash keeps the invariant. */
  lemma StepInv(s: State, e: Event)
    requires Inv(s) && Enabled(s, e)
    ensures Inv(Next(s, e))
  {
    hide Inv, Enabled, Next;
    match e
    case CopyKey(fate) => CopyKeyInv(s, fate);
    case Start(_, _) => PhaseOneInv(s, e);
    case SaveCopying => PhaseOneInv(s, e);
    case MarkImporting => PhaseOneInv(s, e);
    case SaveCopied => PhaseOneInv(s, e);
    case SetMigrating(_) => PhaseOneInv(s, e);
    case Expire(k) => ExpireInv(s, k);
    case Write(at, how, k, v) => WriteInv(s, at, how, k, v);
    case Stable(saved) => StableInv(s, saved);
    case SaveCommit(todo) => SaveCommitInv(s, todo);
    case DeleteKey => DeleteKeyInv(s);
    case Assign(known, saved) => AssignInv(s, known, saved);
    case SaveDone(told) => SaveDoneInv(s, told);
    case ClearFlag(saved) => ClearFlagInv(s, saved);
    case ClearCopy(saved) => ClearCopyInv(s, saved);
    case DropJournal => DropJournalInv(s);
    case Recover(todo) => RecoverInv(s, todo);
    case UndoTarget(survivors, stable) => UndoTargetInv(s, survivors, stable);
    case UndoClear(saved) => UndoClearInv(s, saved);
    case SaveConfig => SaveConfigInv(s);
    case Fail => FailInv(s);
    case Crash => CrashInv(s);
  }

  // ---------------------------------------------------------------------- runs

  ghost predicate IsRun(s: State, es: seq<Event>)
    decreases |es|
  {
    WellFormed(s) && (es == [] || (Enabled(s, es[0]) && IsRun(Next(s, es[0]), es[1..])))
  }

  ghost function Run(s: State, es: seq<Event>): State
    requires IsRun(s, es)
    decreases |es|
  {
    if es == [] then s else Run(Next(s, es[0]), es[1..])
  }

  lemma {:induction false} RunInv(s: State, es: seq<Event>)
    requires Inv(s) && IsRun(s, es)
    ensures Inv(Run(s, es))
    decreases |es|
  {
    hide Inv, Enabled, Next, WellFormed;
    if es != [] {
      StepInv(s, es[0]);
      RunInv(Next(s, es[0]), es[1..]);
    }
  }

  /** A run from `s0` through `es` ends in `s`. */
  ghost predicate Leads(s0: State, es: seq<Event>, s: State) {
    IsRun(s0, es) && Run(s0, es) == s
  }

  lemma {:induction false} RunExtends(s: State, es: seq<Event>, e: Event)
    requires Inv(s) && IsRun(s, es) && Inv(Run(s, es)) && Enabled(Run(s, es), e)
    ensures IsRun(s, es + [e]) && Run(s, es + [e]) == Next(Run(s, es), e)
    decreases |es|
  {
    hide Inv, Enabled, Next, WellFormed;
    if es == [] {
      StepInv(s, e);
      assert WellFormed(Next(s, e)) by { InvWellFormed(Next(s, e)); }
      assert (es + [e])[1..] == [];
    } else {
      StepInv(s, es[0]);
      RunExtends(Next(s, es[0]), es[1..], e);
      assert (es + [e])[1..] == es[1..] + [e];
    }
  }

  lemma InvWellFormed(s: State)
    requires Inv(s)
    ensures WellFormed(s)
  {}

  /** A run goes on by any step enabled at its end. */
  lemma Then(s0: State, es: seq<Event>, s: State, e: Event)
    requires Inv(s0) && Leads(s0, es, s) && Inv(s) && Enabled(s, e)
    ensures Leads(s0, es + [e], Next(s, e)) && Inv(Next(s, e))
  {
    hide Inv, Enabled, Next, WellFormed, IsRun, Run;
    RunExtends(s0, es, e);
    StepInv(s, e);
  }

  lemma InitialInv(s: State)
    requires Initial(s)
    ensures Inv(s)
  {
    BeginInv(s.src, s.dst);
    hide TargetIs, SourceIs, TouchInv;
  }
}
