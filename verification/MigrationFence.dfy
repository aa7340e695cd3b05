/** The client gates around a migrating slot: redirects and write fences. */
module MigrationFence {
  import opened Basics

  datatype Redirect = Moved(addr: string) | Ask(addr: string)

  /** One node's view of one slot. `owner` is the owning node's id and address in its table. */
  datatype SlotView = SlotView(self: string, owner: Option<(string, string)>,
                               migratingTo: Option<string>, importing: bool)

  /** What a node does with a key-routed command. */
  datatype Verdict = Execute | Redirected(to: Redirect) | MigratingFence | ImportingFence

  /** A command as the gate sees it: its name, and whether it is in the write set. */
  datatype Request = Request(name: string, write: bool)

  predicate Fenceable(r: Request) { r.name != "" && r.write && r.name != "RESTORE" }

  predicate OwnsSlot(v: SlotView) { v.owner.Some? && v.owner.value.0 == v.self }

  predicate IsMigrating(v: SlotView) { OwnsSlot(v) && v.migratingTo.Some? }

  /** CheckSlotRedirect; `addrOf` is the lookup of the recorded target in the node table. */
  function SlotRedirect(v: SlotView, addrOf: Option<string>): Option<Redirect> {
    if v.owner.None? then None
    else if !OwnsSlot(v) then Some(Moved(v.owner.value.1))
    else if IsMigrating(v) && v.migratingTo.value != "" then
      if addrOf.Some? && addrOf.value != "" then Some(Ask(addrOf.value)) else Some(Ask(v.migratingTo.value))
    else None
  }

  /** checkAndHandleRedirect's verdict. `found` is the store's answer for the key, None an error. */
  function Gate(asking: bool, v: SlotView, addrOf: Option<string>, found: Option<bool>, r: Request): Verdict {
    if asking && v.importing then if Fenceable(r) then ImportingFence else Execute
    else match SlotRedirect(v, addrOf)
      case None => Execute
      case Some(Moved(a)) => Redirected(Moved(a))
      case Some(Ask(a)) =>
        if found == Some(true) then if Fenceable(r) && IsMigrating(v) then MigratingFence else Execute
        else Redirected(Ask(a))
  }

  /** ASKING lets the command past the redirects: the slot is being imported here. */
  predicate LetIn(asking: bool, v: SlotView) { asking && v.importing }

  predicate Elsewhere(v: SlotView) { v.owner.Some? && v.owner.value.0 != v.self }

  /** Owned here, and on its way to a target that is named. */
  predicate Leaving(v: SlotView) {
    v.owner.Some? && v.owner.value.0 == v.self && v.migratingTo.Some? && v.migratingTo.value != ""
  }

  /** The target's address, if the node table has one, and otherwise what was recorded for it. */
  function AskAddress(v: SlotView, addrOf: Option<string>): string
    requires Leaving(v)
  {
    if addrOf.Some? && addrOf.value != "" then addrOf.value else v.migratingTo.value
  }

  /**
    What a client is told. MOVED, with the owner's address, exactly when another node owns the slot; ASK,
    with the target's, exactly when the slot is leaving and the key is not here; a fence error exactly
    for fenceable writes to a key still here, and to an importing slot. All else executes.
   */
  ghost predicate Answers(verdict: Verdict, asking: bool, v: SlotView, addrOf: Option<string>, found: Option<bool>, r: Request) {
    && (forall a :: verdict == Redirected(Moved(a)) <==> !LetIn(asking, v) && Elsewhere(v) && a == v.owner.value.1)
    && (forall a :: verdict == Redirected(Ask(a)) <==>
          !LetIn(asking, v) && Leaving(v) && found != Some(true) && a == AskAddress(v, addrOf))
    && (verdict == MigratingFence <==>
          !LetIn(asking, v) && Leaving(v) && found == Some(true) && r.name != "" && r.write && r.name != "RESTORE")
    && (verdict == ImportingFence <==> LetIn(asking, v) && r.name != "" && r.write && r.name != "RESTORE")
  }

  /** The gate answers so for every request. */
  lemma GateExact(asking: bool, v: SlotView, addrOf: Option<string>, found: Option<bool>, r: Request)
    ensures Answers(Gate(asking, v, addrOf, found, r), asking, v, addrOf, found, r)
  {}

  /**
    A fenced write executes exactly when the node neither sends the client away nor has the
    slot on the move.
   */
  lemma WriteExecutesExactly(asking: bool, v: SlotView, addrOf: Option<string>, found: Option<bool>, r: Request)
    requires Fenceable(r)
    ensures Gate(asking, v, addrOf, found, r) == Execute <==>
            !(asking && v.importing) &&
            (v.owner.None? || (OwnsSlot(v) && (v.migratingTo.None? || v.migratingTo.value == "")))
  {}

  /** With the slot MIGRATING here and IMPORTING there, no routed write but RESTORE runs on either side. */
  lemma NoWriteDuringMigration(source: SlotView, target: SlotView, addrOf: Option<string>,
                               found: Option<bool>, asking: bool, r: Request)
    requires Fenceable(r)
    requires IsMigrating(source) && source.migratingTo.value != ""
    requires target.importing && target.owner.Some? && !OwnsSlot(target)
    ensures Gate(asking, source, addrOf, found, r) != Execute
    ensures Gate(asking, target, addrOf, found, r) != Execute
    ensures Gate(true, target, addrOf, found, Request("RESTORE", true)) == Execute
    ensures found == Some(true) && !(asking && source.importing) ==>
              Gate(asking, source, addrOf, found, Request("GET", false)) == Execute
  {}

  /** A client's connection, with its one-shot ASKING flag. */
  class Connection {
    var asking: bool

    constructor ()
      ensures !asking
    {
      asking := false;
    }

    /** ASKING lets one key-routed command into an importing slot, and is used up by it. */
    method CheckRedirect(v: SlotView, addrOf: Option<string>, found: Option<bool>, r: Request) returns (verdict: Verdict)
      modifies this
      ensures verdict == Gate(old(asking), v, addrOf, found, r) && !asking
      ensures Answers(verdict, old(asking), v, addrOf, found, r)
    {
      GateExact(asking, v, addrOf, found, r);
      var asked := asking;
      asking := false;
      if asked && v.importing {
        return if Fenceable(r) then ImportingFence else Execute;
      }
      var redirect := SlotRedirect(v, addrOf);
      if redirect.None? { return Execute; }
      if redirect.value.Moved? { return Redirected(redirect.value); }
      if found == Some(true) {
        return if Fenceable(r) && IsMigrating(v) then MigratingFence else Execute;
      }
      verdict := Redirected(redirect.value);
    }

    /** The ASKING command. */
    method Asking()
      modifies this
      ensures asking
    {
      asking := true;
    }
  }

  datatype MultiVerdict = Proceed | CrossSlot | MultiRedirect(to: Redirect)

  /** checkAndHandleMultiKeyRedirect over the per-key redirects: no fence, but any redirect stops it. */
  method MultiKeyGate(redirects: seq<Option<Redirect>>) returns (r: MultiVerdict)
    ensures r == Proceed <==> forall i :: 0 <= i < |redirects| ==> redirects[i].None?
    ensures r == CrossSlot ==>
              |redirects| > 1 &&
              exists i :: 0 <= i < |redirects| && redirects[i].Some? && redirects[i].value.Ask? &&
                          (forall j :: 0 <= j < i ==> redirects[j].None?)
    ensures r.MultiRedirect? ==>
              (r.to.Ask? ==> |redirects| == 1) &&
              exists i :: 0 <= i < |redirects| && redirects[i] == Some(r.to) &&
                          (forall j :: 0 <= j < i ==> redirects[j].None?)
  {
    var first: Option<Redirect> := None;
    ghost var at := 0;
    var i := 0;
    while i < |redirects|
      invariant 0 <= i <= |redirects|
      invariant first.None? ==> forall j :: 0 <= j < i ==> redirects[j].None?
      invariant first.Some? ==> 0 <= at < i && redirects[at] == first && forall j :: 0 <= j < at ==> redirects[j].None?
    {
      if redirects[i].Some? {
        if first.None? {
          first := redirects[i];
          at := i;
        }
        if redirects[i].value.Moved? { break; }
      }
      i := i + 1;
    }
    if first.Some? {
      if first.value.Ask? && |redirects| > 1 { return CrossSlot; }
      return MultiRedirect(first.value);
    }
    r := Proceed;
  }
}
