/**
  The order rules of one transfer call. A trace lists, oldest first, what the
  call sent and what it learned. `FactsOf` condenses a past into what matters
  for the rules, `Allowed` says which event may follow which past, and a trace
  is lawful when every event was allowed at its moment.
 */
module TransferTrace {
  import opened Wrappers
  import opened TransferTypes

  datatype ServerRequest = BeginRequest | BundleRequest | ImportRequest | ReceiptRequest | CompleteRequest | RollbackRequest

  datatype Event =
    | StatusRead(status: Option<SourceStatus>)
    | Sent(request: ServerRequest)
    | BundleAccepted(hash: string)
    | ImportRefused                                    // the only import attempt was definitely refused
    | ImportVerified(manifestHash: string, receipt: Receipt)
    | LocalCutover                                     // the registry on disk is at the destination
    | ReceiptAcknowledged
    | CompleteAcknowledged

  datatype ImportKnowledge = NotSent | InDoubt(sentAgain: bool) | RefusedOnce | VerifiedImport
  datatype Closing = NotClosing | ReceiptSent | ReceiptKnown | CompleteSent | CompleteKnown

  datatype Exporting = NotBegun | BeginSent | Bundled(hash: string)

  datatype Facts = Facts(
    terminal: bool,      // the ledger was read as committed and archived
    exported: Exporting, // whether this call asked for an export, and the hash of its bundle
    imported: ImportKnowledge,
    cutover: bool,
    closing: Closing,
    rolledBack: bool)
  {
    /** The destination may hold a Workspace imported by this call. */
    predicate MayHoldImport() { imported.InDoubt? || imported.VerifiedImport? }

    /** An import left and nothing that came back settles what it did. */
    predicate ImportOpen() { imported.InDoubt? }
  }

  /** A call that has not sent its import yet, and nothing that comes after it. */
  predicate BeforeImport(f: Facts) {
    f.imported.NotSent? && !f.cutover && f.closing.NotClosing? && !f.rolledBack
  }

  predicate SameButCutover(f: Facts, g: Facts) {
    && f.terminal == g.terminal && f.exported == g.exported && f.imported == g.imported
    && f.closing == g.closing && f.rolledBack == g.rolledBack && (g.cutover ==> f.cutover)
  }

  predicate SameButImport(f: Facts, g: Facts) {
    && f.terminal == g.terminal && f.exported == g.exported && f.cutover == g.cutover
    && f.closing == g.closing && f.rolledBack == g.rolledBack
  }

  predicate SameButClosing(f: Facts, g: Facts) {
    && f.terminal == g.terminal && f.exported == g.exported && f.imported == g.imported
    && f.cutover == g.cutover && f.rolledBack == g.rolledBack
  }

  predicate SameButRollback(f: Facts, g: Facts) {
    && f.terminal == g.terminal && f.exported == g.exported && f.imported == g.imported
    && f.cutover == g.cutover && f.closing == g.closing
  }

  const NOTHING := Facts(false, NotBegun, NotSent, false, NotClosing, false)

  function Learn(f: Facts, e: Event): Facts {
    Facts(
      f.terminal || (e.StatusRead? && CommittedArchived(e.status)),
      if e == Sent(BeginRequest) then BeginSent else if e.BundleAccepted? then Bundled(e.hash) else f.exported,
      if e == Sent(ImportRequest) then InDoubt(f.imported.InDoubt?)
      else if e.ImportRefused? then RefusedOnce
      else if e.ImportVerified? then VerifiedImport
      else f.imported,
      f.cutover || e.LocalCutover?,
      if e == Sent(ReceiptRequest) then ReceiptSent
      else if e.ReceiptAcknowledged? then ReceiptKnown
      else if e == Sent(CompleteRequest) then CompleteSent
      else if e.CompleteAcknowledged? then CompleteKnown
      else f.closing,
      f.rolledBack || e == Sent(RollbackRequest))
  }

  function FactsOf(t: seq<Event>): Facts {
    if t == [] then NOTHING else Learn(FactsOf(t[..|t| - 1]), t[|t| - 1])
  }

  predicate Allowed(f: Facts, e: Event) {
    && !f.rolledBack
    && match e
       case StatusRead(_) => true
       case Sent(request) => MaySend(f, request)
       case BundleAccepted(_) => f.imported.NotSent? && f.exported.BeginSent?
       case ImportRefused => f.imported == InDoubt(false)
       case ImportVerified(h, r) => f.imported.InDoubt? && f.exported == Bundled(h) && r.sourceHash == h && r.targetHash == h
       case LocalCutover => f.imported.NotSent? || f.imported.VerifiedImport?
       case ReceiptAcknowledged => f.closing.ReceiptSent?
       case CompleteAcknowledged => f.closing.CompleteSent?
  }

  predicate MaySend(f: Facts, request: ServerRequest) {
    match request
    case BeginRequest => !f.cutover && f.exported.NotBegun? && f.imported.NotSent?
    case BundleRequest => !f.cutover && f.exported.BeginSent? && f.imported.NotSent?
    case ImportRequest => !f.cutover && f.exported.Bundled? && (f.imported.NotSent? || f.imported == InDoubt(false))
    case ReceiptRequest => f.cutover && f.closing.NotClosing? && (f.imported.NotSent? || f.imported.VerifiedImport?)
    case CompleteRequest => f.cutover && f.closing.ReceiptKnown? && (f.imported.NotSent? || f.imported.VerifiedImport?)
    case RollbackRequest => !f.cutover && f.closing.NotClosing? && !f.ImportOpen() && !f.terminal
  }

  predicate Lawful(t: seq<Event>) {
    t == [] || (Lawful(t[..|t| - 1]) && Allowed(FactsOf(t[..|t| - 1]), t[|t| - 1]))
  }

  lemma LawfulStep(t: seq<Event>, e: Event)
    requires Lawful(t) && Allowed(FactsOf(t), e)
    ensures Lawful(t + [e]) && FactsOf(t + [e]) == Learn(FactsOf(t), e)
  {
    assert (t + [e])[..|t|] == t;
  }

  lemma {:induction false} LawfulAt(t: seq<Event>, i: nat)
    requires Lawful(t) && i < |t|
    ensures Lawful(t[..i]) && Allowed(FactsOf(t[..i]), t[i])
  {
    if i < |t| - 1 {
      LawfulAt(t[..|t| - 1], i);
      assert t[..|t| - 1][..i] == t[..i];
    }
  }

  lemma {:induction false} FactsHaveEvents(t: seq<Event>)
    requires Lawful(t)
    ensures FactsOf(t).exported.NotBegun? <==> Sent(BeginRequest) !in t
    ensures FactsOf(t).cutover <==> LocalCutover in t
    ensures FactsOf(t).closing.NotClosing? <==> Sent(ReceiptRequest) !in t
    ensures !FactsOf(t).closing.NotClosing? ==> FactsOf(t).cutover
    ensures FactsOf(t).closing in {ReceiptKnown, CompleteSent, CompleteKnown} <==> ReceiptAcknowledged in t
    ensures FactsOf(t).closing in {CompleteSent, CompleteKnown} <==> Sent(CompleteRequest) in t
    ensures FactsOf(t).closing == CompleteKnown <==> CompleteAcknowledged in t
    ensures FactsOf(t).rolledBack ==> !FactsOf(t).ImportOpen()
    ensures FactsOf(t).rolledBack <==> Sent(RollbackRequest) in t
    ensures FactsOf(t).imported == NotSent <==> Sent(ImportRequest) !in t
  {
    if t != [] {
      var front, e := t[..|t| - 1], t[|t| - 1];
      FactsHaveEvents(front);
      assert t == front + [e];
    }
  }

  /**
    A rollback is the last event of its call and the only rollback; the call
    neither cut over locally nor sent a receipt or complete request, no import
    is left open, and the ledger was not read as committed and archived.
   */
  lemma RollbackIsLastAndAlone(t: seq<Event>, i: nat)
    requires Lawful(t) && i < |t| && t[i] == Sent(RollbackRequest)
    ensures i == |t| - 1
    ensures forall j | 0 <= j < i :: t[j] !in {Sent(RollbackRequest), Sent(ReceiptRequest), Sent(CompleteRequest), LocalCutover}
    ensures !FactsOf(t).ImportOpen() && !FactsOf(t).terminal
  {
    var front := t[..|t| - 1];
    FactsHaveEvents(front);
    assert forall j | 0 <= j < |front| :: t[j] in front;
  }

  /**
    The source is told to complete only after the registry is durably at the
    destination, then the receipt was sent and then acknowledged, all earlier in
    this call; and when this call imported, only after manifest and receipt
    both carried the hash of the bundle it had exported.
   */
  lemma CompleteIsEarned(t: seq<Event>, i: nat) returns (cutover: nat, sent: nat, acknowledged: nat)
    requires Lawful(t) && i < |t| && t[i] == Sent(CompleteRequest)
    ensures cutover < sent < acknowledged < i
    ensures t[cutover] == LocalCutover && t[sent] == Sent(ReceiptRequest) && t[acknowledged] == ReceiptAcknowledged
    ensures Sent(ImportRequest) in t[..i] ==> exists v :: 0 <= v < i && VerifiedAgainstBundle(t, v)
  {
    LawfulAt(t, i);
    FactsHaveEvents(t[..i]);
    acknowledged :| 0 <= acknowledged < i && t[..i][acknowledged] == ReceiptAcknowledged;
    LawfulAt(t, acknowledged);
    FactsHaveEvents(t[..acknowledged]);
    sent :| 0 <= sent < acknowledged && t[..acknowledged][sent] == Sent(ReceiptRequest);
    LawfulAt(t, sent);
    FactsHaveEvents(t[..sent]);
    cutover :| 0 <= cutover < sent && t[..sent][cutover] == LocalCutover;
    if Sent(ImportRequest) in t[..i] {
      var v := VerificationBefore(t, i);
    }
  }

  /** The manifest and both receipt hashes of an import equal the exported bundle's hash. */
  predicate VerifiedAgainstBundle(t: seq<Event>, v: nat)
    requires v < |t|
  {
    && t[v].ImportVerified?
    && BundleAccepted(t[v].manifestHash) in t[..v]
    && t[v].receipt.sourceHash == t[v].receipt.targetHash == t[v].manifestHash
  }

  lemma {:induction false} VerificationBefore(t: seq<Event>, i: nat) returns (v: nat)
    requires Lawful(t) && i <= |t| && FactsOf(t[..i]).imported.VerifiedImport?
    ensures v < i && VerifiedAgainstBundle(t, v)
  {
    assert t[..i][..i - 1] == t[..i - 1];
    if t[i - 1].ImportVerified? {
      v := i - 1;
      LawfulAt(t, v);
      BundleWasAccepted(t[..v]);
    } else {
      v := VerificationBefore(t, i - 1);
    }
  }

  lemma {:induction false} BundleWasAccepted(t: seq<Event>)
    requires FactsOf(t).exported.Bundled?
    ensures BundleAccepted(FactsOf(t).exported.hash) in t
  {
    if !t[|t| - 1].BundleAccepted? {
      BundleWasAccepted(t[..|t| - 1]);
    }
  }

  /** What the checkpoint written after a failed call must say about that call. */
  predicate Truthful(c: Checkpoint, f: Facts) {
    && (c.phase == RestoringPhase <==> f.ImportOpen())
    && (c.phase == RestoringPhase ==> !f.cutover)
    && (c.sourceArchived <==> f.closing.CompleteKnown? || f.terminal)
    && (c.targetCleanupRequired == Some(true) <==> f.MayHoldImport() && !f.cutover)
    && (f.cutover ==> c.phase in {CutoverPhase, ArchivedPhase})
    && (c.phase == ArchivedPhase ==> c.sourceArchived && f.cutover)
  }
}
