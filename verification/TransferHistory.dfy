/**
  What one whole call does to both Servers, told by its plan; and histories of
  calls, preflights and restarts as sequences of snapshots.
 */
module TransferHistory {
  import opened Wrappers
  import opened TransferTypes
  import opened TransferServers
  import opened TransferDecisions
  import opened TransferTrace
  import opened TransferPlan
  import opened TransferState

  // ----- one call -----------------------------------------------------------

  /** What is known of the import, and what it made of the destination; `source` is the exporting source. */
  predicate ImportMoved(p: Plan, req: Request, source: SourceServer, sent: bool,
                        destination0: TargetServer, destination: TargetServer, imported: ImportKnowledge) {
    if sent then
      var hash := ExportedHash(source).GetOr("");
      var first := FirstReply(p, req, destination0, hash);
      && !imported.NotSent?
      && destination == AfterImports(p, req, destination0, hash)
      && (imported.RefusedOnce? <==> first.Refused? && !LeavesOpen(first))
      && (imported.VerifiedImport? ==> IsSuccess(LastReply(p, req, destination0, hash)))
    else imported.NotSent? && destination == destination0
  }

  /** What receipt, complete and rollback made of the source that stood at `s` before them. */
  predicate SourceMoved(p: Plan, req: Request, s: SourceServer, receipt: Option<Receipt>, source: SourceServer, f: Facts) {
    if f.rolledBack then f.closing.NotClosing? && source == StateAfter(p.rollback, s, Rollback(s))
    else if f.closing.NotClosing? then source == s
    else
      && receipt.Some? && source == AfterClosing(p, req, receipt.value, s)
      && (f.closing in {CompleteSent, CompleteKnown} <==>
            IsSuccess(ReplyTo(p.receipt, RecordReceipt(s, req, receipt.value).accepted)))
  }

  /** The source before any request other than begin and bundle. */
  function Exporter(p: Plan, begun: bool, source: SourceServer): SourceServer {
    if begun then SourceAfterBegin(p, source) else source
  }

  /** All that a call changes on the two Servers, and the facts of its trace that account for it. */
  predicate Moved(p: Plan, req: Request, begun: bool, source0: SourceServer, destination0: TargetServer,
                  receipt: Option<Receipt>, source: SourceServer, destination: TargetServer, f: Facts) {
    && (begun <==> !f.exported.NotBegun?)
    && (begun ==> !f.terminal)
    && (!f.closing.NotClosing? ==> f.cutover)
    && (f.rolledBack ==> begun)
    && (begun && f.cutover ==> f.imported.VerifiedImport?)
    && ImportMoved(p, req, Exporter(p, begun, source0), begun && ReachesImport(p, source0), destination0, destination, f.imported)
    && SourceMoved(p, req, Exporter(p, begun, source0), receipt, source, f)
  }

  /** The failure handler adds at most a rollback. */
  lemma FailingMoves(p: Plan, req: Request, begun: bool, source0: SourceServer, destination0: TargetServer, receipt: Option<Receipt>,
                     before: SourceServer, source: SourceServer, destination: TargetServer, f: Facts, g: Facts)
    requires Moved(p, req, begun, source0, destination0, receipt, before, destination, f) && !f.rolledBack
    requires SameButRollback(g, f) && (g.rolledBack ==> begun && !g.cutover)
    requires source == if g.rolledBack then StateAfter(p.rollback, before, Rollback(before)) else before
    ensures Moved(p, req, begun, source0, destination0, receipt, source, destination, g)
  {
  }

  /** How far a call gets on its way, told by its plan: the verification, the cutover and the requests that close the source. */
  predicate Proceeded(p: Plan, req: Request, route: Route, cuttable: bool, source0: SourceServer, destination0: TargetServer,
                      receipt: Option<Receipt>, f: Facts) {
    && (f.imported.VerifiedImport? <==>
          && route.Exporting? && ReachesImport(p, source0)
          && Verifies(p, req, destination0, ExportedHash(SourceAfterBegin(p, source0)).GetOr("")))
    && (f.cutover <==>
          && p.authorize.Granted? && cuttable && Lands(p.commit)
          && match route
             case Exporting => f.imported.VerifiedImport? && p.saveVerified.Saved?
             case Resuming => receipt.Some?
             case OnlyLocal => true
             case Nowhere => false)
    && (!f.closing.NotClosing? <==>
          f.cutover && p.commit.Saved? && (route.Resuming? || (route.Exporting? && p.saveCutover.Saved?)))
  }

  /** Every change on a Server goes back to a request in the trace `t`. */
  predicate Accounted(source0: SourceServer, destination0: TargetServer, source: SourceServer, destination: TargetServer,
                      t: seq<Event>) {
    && (destination != destination0 ==> Sent(ImportRequest) in t)
    && (source != source0 ==> Sent(BeginRequest) in t || Sent(ReceiptRequest) in t)
    && (RowIn(source, {RolledBack}) && !RowIn(source0, {RolledBack}) ==> Sent(RollbackRequest) in t)
    && (RowIn(source, {Imported}) && !RowIn(source0, {Imported}) ==> Sent(ReceiptRequest) in t)
    && (RowIn(source, {Committed}) && !RowIn(source0, {Committed}) ==> Sent(CompleteRequest) in t)
  }

  lemma MovesAreAccounted(p: Plan, req: Request, begun: bool, source0: SourceServer, destination0: TargetServer,
                          receipt: Option<Receipt>, source: SourceServer, destination: TargetServer, t: seq<Event>)
    requires Lawful(t) && Moved(p, req, begun, source0, destination0, receipt, source, destination, FactsOf(t))
    ensures Accounted(source0, destination0, source, destination, t)
  {
    FactsHaveEvents(t);
  }

  /** The call restored nothing: it never sent its import, or was definitely refused. */
  predicate ImportsNothing(p: Plan, req: Request, source0: SourceServer, destination0: TargetServer) {
    ReachesImport(p, source0) ==>
      var first := FirstReply(p, req, destination0, ExportedHash(SourceAfterBegin(p, source0)).value);
      first.Refused? && !LeavesOpen(first)
  }

  /**
    How a failed call leaves the transfer. If its import is open, a later call can
    still finish. With honest Servers the source is rolled back although the
    destination holds a Workspace that the checkpoint does not report, exactly
    when the Workspace stood there before and this call itself imported nothing.
   */
  predicate FailureAccounted(p: Plan, req: Request, begun: bool, source0: SourceServer, destination0: TargetServer,
                             source: SourceServer, destination: TargetServer, f: Facts, l: Local) {
    && l.checkpoint.Some?
    && (f.ImportOpen() && Startable(source0, destination0, req, OfferedHash(p)) ==>
          RowIn(source, {Exported}) && Restartable(l, source, destination, req, OfferedHash(p)))
    && (HonestAnswers(p, req) ==>
          (f.rolledBack && !destination.Absent? && l.checkpoint.value.targetCleanupRequired != Some(true)
           <==> begun && !destination0.Absent? && ImportsNothing(p, req, source0, destination0)))
  }

  lemma FailureIsAccounted(p: Plan, req: Request, begun: bool, source0: SourceServer, destination0: TargetServer,
                           receipt: Option<Receipt>, source: SourceServer, destination: TargetServer, f: Facts, l: Local)
    requires Moved(p, req, begun, source0, destination0, receipt, source, destination, f)
    requires f.rolledBack <==> begun && !f.cutover && !f.ImportOpen()
    requires l.checkpoint.Some? && Truthful(l.checkpoint.value, f)
    ensures FailureAccounted(p, req, begun, source0, destination0, source, destination, f, l)
  {
  }

  /** A call whose requests all succeed cuts over only what can start or start again, if the cutover is its own. */
  lemma CutoverWasPossible(p: Plan, req: Request, memory0: Local, disk0: Local, source0: SourceServer, destination0: TargetServer,
                           receipt: Option<Receipt>, f: Facts)
    requires Consistent(memory0, disk0, source0, destination0, req) && !Resumable(memory0, disk0, source0, destination0, req)
    requires Honest(p, req, source0, destination0) && Smooth(p)
    requires Proceeded(p, req, RouteOf(p, memory0, source0, req), Cutover(memory0.registry, req).Some?,
                       source0, destination0, receipt, f)
    requires f.cutover
    ensures Restartable(memory0, source0, destination0, req, OfferedHash(p))
  {
    ResumableMeansMarked(memory0, disk0, source0, destination0, req);
    PassingIsFreshStart(memory0, disk0, source0, destination0, req, p.probe);
    PassingAccounts(memory0, disk0, source0, destination0, req, p.probe);
    assert RouteOf(p, memory0, source0, req).Exporting?;
  }

  // ----- invariants along one call ------------------------------------------

  lemma BeginKeepsPending(p: Plan, req: Request, memory: Local, disk: Local, receipt: Option<Receipt>,
                          source: SourceServer, destination: TargetServer)
    requires Pending(memory, disk, receipt, source, destination, req) && FreshStart(source)
    ensures Pending(memory, disk, receipt, SourceAfterBegin(p, source), destination, req)
  {
    BeginKeeps(memory, disk, receipt, source, destination, req, p.exportEnd);
  }

  lemma ImportsKeepPending(p: Plan, req: Request, memory: Local, disk: Local, receipt: Option<Receipt>,
                           source: SourceServer, destination: TargetServer, hash: string)
    requires Pending(memory, disk, receipt, source, destination, req)
    ensures Pending(memory, disk, receipt, source, AfterImports(p, req, destination, hash), req)
  {
    ImportKeeps(memory, disk, receipt, source, destination, req, hash, p.importedAt);
    ImportKeeps(memory, disk, receipt, source, AfterFirstImport(p, req, destination, hash), req, hash, p.importedAt);
  }

  /** A confirmed import brings the receipt of the Workspace that is there. */
  lemma ConfirmedIsPending(req: Request, memory: Local, disk: Local, receipt: Option<Receipt>,
                           source: SourceServer, destination: TargetServer)
    requires Pending(memory, disk, receipt, source, destination, req)
    requires ExportedHash(source).Some? && destination.Restored? && ReceiptFits(destination.receipt, req, ExportedHash(source).value)
    ensures Pending(memory, disk, Some(destination.receipt), source, destination, req)
  {
  }

  /** Closing an honest source keeps a secured transfer secured, and commits when it is answered. */
  lemma ClosingKeepsSecured(p: Plan, req: Request, memory: Local, disk: Local, receipt: Option<Receipt>,
                            source: SourceServer, destination: TargetServer)
    requires Secured(memory, disk, receipt, source, destination, req) && !RowIn(source, {Committed}) && HonestAnswers(p, req)
    ensures Secured(memory, disk, receipt, AfterClosing(p, req, receipt.value, source), destination, req)
    ensures var served := RecordReceipt(source, req, receipt.value);
            && served.accepted
            && (IsSuccess(ReplyTo(p.receipt, true)) ==>
                  && Complete(StateAfter(p.receipt, source, served)).accepted
                  && (IsSuccess(ReplyTo(p.complete, true)) ==> RowIn(AfterClosing(p, req, receipt.value, source), {Committed})))
  {
    ReceiptIsTaken(memory, disk, receipt, source, destination, req);
    var received := StateAfter(p.receipt, source, RecordReceipt(source, req, receipt.value));
    if RowIn(received, {Imported}) {
      CompleteIsTaken(memory, disk, receipt, received, destination, req);
    }
  }

  lemma RollbackKeepsPending(p: Plan, req: Request, memory: Local, disk: Local, receipt: Option<Receipt>,
                             source: SourceServer, destination: TargetServer)
    ensures Pending(memory, disk, receipt, source, destination, req) ==>
              Pending(memory, disk, receipt, StateAfter(p.rollback, source, Rollback(source)), destination, req)
    ensures RowIn(source, {Imported, Committed}) ==> StateAfter(p.rollback, source, Rollback(source)) == source
  {
    RollbackKeeps(memory, disk, receipt, source, destination, req);
  }

  // ----- histories ----------------------------------------------------------

  /** A history of one transfer id is a sequence of these. */
  datatype Step = Executing(plan: Plan) | Preflighting(plan: Plan) | Restarting

  /** What a moment of a history holds: both copies, both Servers, and trace and receipt of the last call. */
  datatype Snap = Snap(memory: Local, disk: Local, source: SourceServer, destination: TargetServer,
                       trace: seq<Event>, receipt: Option<Receipt>)

  ghost predicate ConsistentAt(s: Snap, req: Request) {
    Consistent(s.memory, s.disk, s.source, s.destination, req)
  }

  ghost predicate ResumableAt(s: Snap, req: Request) {
    Resumable(s.memory, s.disk, s.source, s.destination, req)
  }

  predicate ConcludedAt(s: Snap, req: Request) {
    Over(s.memory, s.disk, s.source, req)
  }

  /** A step whose Servers are not honest at its moment is passed over. */
  predicate Taken(req: Request, step: Step, s: Snap) {
    step.Restarting? || Honest(step.plan, req, s.source, s.destination)
  }

  /** The cutover is durable, or the transfer can start or start again. */
  ghost predicate PromisingAt(s: Snap, req: Request, plan: Plan) {
    ResumableAt(s, req) || Restartable(s.memory, s.source, s.destination, req, OfferedHash(plan))
  }

  predicate RecoveringAt(s: Snap) { Recovering(s.memory) || Recovering(s.disk) }

  /** What a preflight does to the note that an import may have left: it never makes one, and what it records deletes it. */
  predicate PreflightLosesNote(req: Request, before: Snap, plan: Plan, after: Snap) {
    && NoNewRecovery(before.memory, before.disk, after.memory, after.disk)
    && (RecordsStop(plan, before.memory, before.source, req) || RecordsPreflight(plan, before.memory, before.source, req) ==>
          !RecoveringAt(after))
  }

  /**
    What a call does to it: an open import is noted in both copies; a call that
    stops before its guarded part does what a preflight does; and one that gets
    there and sends no import leaves no note, unless the process stops right
    after writing it.
   */
  predicate CallKeepsNote(req: Request, before: Snap, plan: Plan, after: Snap) {
    var f := FactsOf(after.trace);
    && (f.ImportOpen() ==> Recovering(after.memory) && Recovering(after.disk))
    && (!Begins(plan, before.memory, before.source, req) ==> PreflightLosesNote(req, before, plan, after))
    && (RecordsPreflight(plan, before.memory, before.source, req) && f.imported.NotSent? ==>
          StopsRestoring(plan, before.source) || !RecoveringAt(after))
  }

  /** What one whole call with honest Servers makes of a consistent moment. */
  ghost predicate CallRelates(req: Request, before: Snap, plan: Plan, after: Snap) {
    && Lawful(after.trace)
    && Moved(plan, req, GoesFresh(plan, before.memory, before.source, req), before.source, before.destination,
             after.receipt, after.source, after.destination, FactsOf(after.trace))
    && Proceeded(plan, req, RouteOf(plan, before.memory, before.source, req), Cutover(before.memory.registry, req).Some?,
                 before.source, before.destination, after.receipt, FactsOf(after.trace))
    && (ResumableAt(after, req) <==> ResumableAt(before, req) || LocalCutover in after.trace)
    && (ResumableAt(before, req) ==> Sent(ImportRequest) !in after.trace && Sent(RollbackRequest) !in after.trace)
    && (Smooth(plan) && PromisingAt(before, req, plan) ==> ConcludedAt(after, req))
    && CallKeepsNote(req, before, plan, after)
    && (if LocalCutover in after.trace
        then after.memory.registry == after.disk.registry && Switched(before.memory.registry, after.memory.registry, req)
        else KeepsRegistry(before.memory, before.disk, after.memory, after.disk))
  }

  ghost predicate StepRelates(req: Request, before: Snap, step: Step, after: Snap) {
    if !Taken(req, step, before) then after == before
    else
      && ConsistentAt(after, req)
      && match step
         case Executing(plan) => CallRelates(req, before, plan, after)
         case Preflighting(plan) =>
           && after == before.(memory := after.memory, disk := after.disk)
           && (ResumableAt(after, req) <==> ResumableAt(before, req))
           && PreflightLosesNote(req, before, plan, after)
           && KeepsRegistry(before.memory, before.disk, after.memory, after.disk)
         case Restarting =>
           && after == before.(memory := before.disk)
           && (ResumableAt(before, req) ==> ResumableAt(after, req))
  }

  ghost predicate IsHistory(req: Request, steps: seq<Step>, snaps: seq<Snap>) {
    && |snaps| == |steps| + 1
    && ConsistentAt(snaps[0], req)
    && forall i | 0 <= i < |steps| :: RelatesAt(req, steps, snaps, i)
  }

  ghost predicate RelatesAt(req: Request, steps: seq<Step>, snaps: seq<Snap>, i: nat)
    requires |snaps| == |steps| + 1 && i < |steps|
  {
    StepRelates(req, snaps[i], steps[i], snaps[i + 1])
  }

  lemma {:induction false} ConsistentThroughout(req: Request, steps: seq<Step>, snaps: seq<Snap>, i: nat)
    requires IsHistory(req, steps, snaps) && i <= |steps|
    ensures ConsistentAt(snaps[i], req)
  {
    if i > 0 {
      ConsistentThroughout(req, steps, snaps, i - 1);
      assert RelatesAt(req, steps, snaps, i - 1);
    }
  }

  lemma {:induction false} ResumableFromThenOn(req: Request, steps: seq<Step>, snaps: seq<Snap>, i: nat, j: nat)
    requires IsHistory(req, steps, snaps) && i <= j <= |steps|
    requires ResumableAt(snaps[i], req)
    ensures ResumableAt(snaps[j], req)
  {
    if i < j {
      ResumableFromThenOn(req, steps, snaps, i, j - 1);
      assert RelatesAt(req, steps, snaps, j - 1);
    }
  }

  /** Call `i` switched the registry for good. */
  predicate CutsOver(req: Request, steps: seq<Step>, snaps: seq<Snap>, i: nat)
    requires |snaps| == |steps| + 1 && i < |steps|
  {
    steps[i].Executing? && Taken(req, steps[i], snaps[i]) && LocalCutover in snaps[i + 1].trace
  }

  /** The transfer stays resumable; nothing is imported, rolled back or changed at the destination; a smooth call concludes. */
  ghost predicate AfterCutover(req: Request, before: Snap, step: Step, after: Snap) {
    && ResumableAt(before, req) && ResumableAt(after, req)
    && after.destination == before.destination
    && (step.Executing? && Taken(req, step, before) ==>
          && Sent(ImportRequest) !in after.trace && Sent(RollbackRequest) !in after.trace
          && (Smooth(step.plan) ==> ConcludedAt(after, req)))
  }

  /** Some call before moment `i` switched the registry. */
  predicate HasCutOver(req: Request, steps: seq<Step>, snaps: seq<Snap>, i: nat)
    requires |snaps| == |steps| + 1 && i <= |steps|
  {
    exists k :: 0 <= k < i && CutsOver(req, steps, snaps, k)
  }

  /**
    The registry at every moment of every history that starts with one registry:
    until a call cuts over it is the first one in both copies; from then on it is
    the first one switched, however often the cutover is committed again.
   */
  lemma {:induction false} RegistryThroughout(req: Request, steps: seq<Step>, snaps: seq<Snap>, i: nat)
    requires IsHistory(req, steps, snaps) && i <= |steps|
    requires snaps[0].memory.registry == snaps[0].disk.registry
    ensures snaps[i].memory.registry == snaps[i].disk.registry
    ensures if HasCutOver(req, steps, snaps, i) then Switched(snaps[0].memory.registry, snaps[i].memory.registry, req)
            else snaps[i].memory.registry == snaps[0].memory.registry
  {
    if i > 0 {
      RegistryThroughout(req, steps, snaps, i - 1);
      assert RelatesAt(req, steps, snaps, i - 1);
      if CutsOver(req, steps, snaps, i - 1) {
        assert HasCutOver(req, steps, snaps, i);
        if HasCutOver(req, steps, snaps, i - 1) {
          SwitchingIsStable(snaps[0].memory.registry, snaps[i - 1].memory.registry, snaps[i].memory.registry, req);
        }
      } else {
        assert HasCutOver(req, steps, snaps, i) <==> HasCutOver(req, steps, snaps, i - 1);
      }
    }
  }

  lemma CutoverIsResumable(req: Request, steps: seq<Step>, snaps: seq<Snap>, i: nat)
    requires IsHistory(req, steps, snaps) && i < |steps| && CutsOver(req, steps, snaps, i)
    ensures ResumableAt(snaps[i + 1], req)
  {
    assert RelatesAt(req, steps, snaps, i);
  }

  /** Whatever happens after a durable cutover, every later step keeps what the cutover has secured. */
  lemma CutoverIsForGood(req: Request, steps: seq<Step>, snaps: seq<Snap>, i: nat, j: nat)
    requires IsHistory(req, steps, snaps) && i < j < |steps| && CutsOver(req, steps, snaps, i)
    ensures AfterCutover(req, snaps[j], steps[j], snaps[j + 1])
  {
    CutoverIsResumable(req, steps, snaps, i);
    ResumableFromThenOn(req, steps, snaps, i + 1, j);
    ResumableFromThenOn(req, steps, snaps, j, j + 1);
    assert RelatesAt(req, steps, snaps, j);
    if steps[j].Executing? && Taken(req, steps[j], snaps[j]) {
      assert CallRelates(req, snaps[j], steps[j].plan, snaps[j + 1]);
      FactsHaveEvents(snaps[j + 1].trace);
    }
  }

  // ----- interrupted imports ------------------------------------------------

  /** From the first moment on, what the destination holds fits what the source records. */
  lemma {:induction false} FittedThroughout(req: Request, steps: seq<Step>, snaps: seq<Snap>, i: nat)
    requires IsHistory(req, steps, snaps) && i <= |steps|
    requires Fitted(snaps[0].source, snaps[0].destination, req)
    ensures Fitted(snaps[i].source, snaps[i].destination, req)
  {
    if i > 0 {
      FittedThroughout(req, steps, snaps, i - 1);
      ConsistentThroughout(req, steps, snaps, i - 1);
      var before, step, after := snaps[i - 1], steps[i - 1], snaps[i];
      assert RelatesAt(req, steps, snaps, i - 1);
      if step.Executing? && Taken(req, step, before) {
        CallKeepsFitted(req, before, step.plan, after);
      }
    }
  }

  lemma CallKeepsFitted(req: Request, before: Snap, plan: Plan, after: Snap)
    requires ConsistentAt(before, req) && Honest(plan, req, before.source, before.destination)
    requires CallRelates(req, before, plan, after) && Fitted(before.source, before.destination, req)
    ensures Fitted(after.source, after.destination, req)
  {
    var f := FactsOf(after.trace);
    if GoesFresh(plan, before.memory, before.source, req) {
      ResumableMeansMarked(before.memory, before.disk, before.source, before.destination, req);
      PassingIsFreshStart(before.memory, before.disk, before.source, before.destination, req, plan.probe);
      FreshCallKeepsFitted(plan, req, before.source, before.destination, after.receipt, after.source, after.destination, f);
    } else {
      MovingKeepsFitted(plan, req, before.source, before.destination, after.receipt, after.source, f);
    }
  }

  /** No request after the import takes a bundle's hash from the ledger. */
  lemma MovingKeepsFitted(p: Plan, req: Request, s: SourceServer, destination: TargetServer, receipt: Option<Receipt>,
                          source: SourceServer, f: Facts)
    requires SourceMoved(p, req, s, receipt, source, f) && Fitted(s, destination, req)
    ensures Fitted(source, destination, req)
  {
  }

  lemma FreshCallKeepsFitted(p: Plan, req: Request, source0: SourceServer, destination0: TargetServer, receipt: Option<Receipt>,
                             source: SourceServer, destination: TargetServer, f: Facts)
    requires Moved(p, req, true, source0, destination0, receipt, source, destination, f)
    requires FreshStart(source0) && Fitted(source0, destination0, req)
    ensures Fitted(source, destination, req)
  {
    assert Fitted(SourceAfterBegin(p, source0), destination, req);
    MovingKeepsFitted(p, req, SourceAfterBegin(p, source0), destination, receipt, source, f);
  }

  /**
    Exactly when a call whose requests all succeed concludes: the transfer has cut
    over already, or it can start, or it can start again with a checkpoint that
    accounts for the Workspace that is already there.
   */
  lemma SmoothCallConcludesExactly(req: Request, steps: seq<Step>, snaps: seq<Snap>, j: nat)
    requires IsHistory(req, steps, snaps) && j < |steps|
    requires steps[j].Executing? && Taken(req, steps[j], snaps[j]) && Smooth(steps[j].plan)
    ensures ConcludedAt(snaps[j + 1], req) <==> PromisingAt(snaps[j], req, steps[j].plan)
  {
    var before, plan, after := snaps[j], steps[j].plan, snaps[j + 1];
    ConsistentThroughout(req, steps, snaps, j);
    assert RelatesAt(req, steps, snaps, j);
    if ConcludedAt(after, req) && !ResumableAt(before, req) {
      FactsHaveEvents(after.trace);
      CutoverWasPossible(plan, req, before.memory, before.disk, before.source, before.destination,
                         after.receipt, FactsOf(after.trace));
    }
  }

  /** Once the destination holds the exported Workspace, all depends on the checkpoint. */
  lemma RestoredNeedsNote(req: Request, steps: seq<Step>, snaps: seq<Snap>, j: nat)
    requires IsHistory(req, steps, snaps) && j < |steps| && Fitted(snaps[0].source, snaps[0].destination, req)
    requires steps[j].Executing? && Taken(req, steps[j], snaps[j]) && Smooth(steps[j].plan)
    requires RowIn(snaps[j].source, {Exported}) && !snaps[j].destination.Absent?
    ensures ConcludedAt(snaps[j + 1], req) <==> ResumableAt(snaps[j], req) || Recovering(snaps[j].memory)
  {
    SmoothCallConcludesExactly(req, steps, snaps, j);
    FittedThroughout(req, steps, snaps, j);
  }

  /** Nothing but restarts happens from moment `i` to moment `j`. */
  predicate OnlyRestarts(req: Request, steps: seq<Step>, snaps: seq<Snap>, i: nat, j: nat)
    requires |snaps| == |steps| + 1 && j <= |steps|
  {
    forall k | i <= k < j :: steps[k].Restarting? || !Taken(req, steps[k], snaps[k])
  }

  lemma {:induction false} RestartsKeepNote(req: Request, steps: seq<Step>, snaps: seq<Snap>, i: nat, j: nat)
    requires IsHistory(req, steps, snaps) && i <= j <= |steps| && OnlyRestarts(req, steps, snaps, i, j)
    requires Recovering(snaps[i].memory) && Recovering(snaps[i].disk)
    ensures Recovering(snaps[j].memory) && Recovering(snaps[j].disk)
    ensures snaps[j].source == snaps[i].source && snaps[j].destination == snaps[i].destination
  {
    if i < j {
      RestartsKeepNote(req, steps, snaps, i, j - 1);
      assert RelatesAt(req, steps, snaps, j - 1);
    }
  }

  /** Call `i` sent its import and never learned what became of it, whether it failed or the process stopped. */
  predicate LeavesImportOpen(req: Request, steps: seq<Step>, snaps: seq<Snap>, i: nat)
    requires |snaps| == |steps| + 1 && i < |steps|
  {
    steps[i].Executing? && Taken(req, steps[i], snaps[i]) && FactsOf(snaps[i + 1].trace).ImportOpen()
  }

  lemma NotedIsRestartable(l: Local, source: SourceServer, destination: TargetServer, req: Request, hash: string)
    requires RowIn(source, {Exported}) && Recovering(l) && Fitted(source, destination, req)
    requires source.row.value.bundleHash.Some?
    ensures Restartable(l, source, destination, req, hash)
  {
  }

  lemma OpenImportIsNoted(req: Request, steps: seq<Step>, snaps: seq<Snap>, i: nat)
    requires IsHistory(req, steps, snaps) && i < |steps| && LeavesImportOpen(req, steps, snaps, i)
    ensures RowIn(snaps[i + 1].source, {Exported}) && Recovering(snaps[i + 1].memory) && Recovering(snaps[i + 1].disk)
  {
    assert RelatesAt(req, steps, snaps, i);
    FactsHaveEvents(snaps[i + 1].trace);
  }

  /** Where both copies note an import of the exported bundle, restarts leave a transfer that can start again. */
  lemma NotedIsPromising(req: Request, steps: seq<Step>, snaps: seq<Snap>, m: nat, j: nat, hash: string)
    requires IsHistory(req, steps, snaps) && Fitted(snaps[0].source, snaps[0].destination, req)
    requires m <= j <= |steps| && OnlyRestarts(req, steps, snaps, m, j)
    requires RowIn(snaps[m].source, {Exported}) && Recovering(snaps[m].memory) && Recovering(snaps[m].disk)
    ensures Restartable(snaps[j].memory, snaps[j].source, snaps[j].destination, req, hash)
  {
    RestartsKeepNote(req, steps, snaps, m, j);
    FittedThroughout(req, steps, snaps, j);
    ConsistentThroughout(req, steps, snaps, j);
    NotedIsRestartable(snaps[j].memory, snaps[j].source, snaps[j].destination, req, hash);
  }

  /**
    A call that leaves its import open is finished by the next one, after any
    restarts, if all requests of that one succeed: with the Workspace that the
    destination holds by then, and with a new one only if it holds none.
   */
  lemma OpenImportIsFinished(req: Request, steps: seq<Step>, snaps: seq<Snap>, i: nat, j: nat)
    requires IsHistory(req, steps, snaps) && Fitted(snaps[0].source, snaps[0].destination, req)
    requires i < j < |steps| && LeavesImportOpen(req, steps, snaps, i) && OnlyRestarts(req, steps, snaps, i + 1, j)
    requires steps[j].Executing? && Taken(req, steps[j], snaps[j]) && Smooth(steps[j].plan)
    ensures ConcludedAt(snaps[j + 1], req)
    ensures !snaps[i + 1].destination.Absent? ==> snaps[j + 1].destination == snaps[i + 1].destination
  {
    OpenImportIsNoted(req, steps, snaps, i);
    NotedIsPromising(req, steps, snaps, i + 1, j, OfferedHash(steps[j].plan));
    SmoothCallConcludesExactly(req, steps, snaps, j);
    if !snaps[i + 1].destination.Absent? {
      OneWorkspaceAtMost(req, steps, snaps, i + 1, j + 1);
    }
  }

  /** The destination holds the Workspace, nothing has cut over, and no copy notes that an import may have left. */
  ghost predicate Stuck(s: Snap, req: Request) {
    ConsistentAt(s, req) && !ResumableAt(s, req) && !s.destination.Absent? && !RecoveringAt(s)
  }

  lemma StuckCallsDoNotBegin(req: Request, s: Snap, plan: Plan)
    requires Stuck(s, req) && Honest(plan, req, s.source, s.destination)
    ensures !Begins(plan, s.memory, s.source, req)
  {
    if Begins(plan, s.memory, s.source, req) {
      PassingAccounts(s.memory, s.disk, s.source, s.destination, req, plan.probe);
    }
  }

  /** Then every call stops at its preflight, and the transfer never concludes. */
  lemma {:induction false} StuckForGood(req: Request, steps: seq<Step>, snaps: seq<Snap>, i: nat, j: nat)
    requires IsHistory(req, steps, snaps) && i <= j <= |steps| && Stuck(snaps[i], req)
    ensures Stuck(snaps[j], req) && !ConcludedAt(snaps[j], req)
    ensures snaps[j].source == snaps[i].source && snaps[j].destination == snaps[i].destination
  {
    if i < j {
      StuckForGood(req, steps, snaps, i, j - 1);
      var before, step, after := snaps[j - 1], steps[j - 1], snaps[j];
      assert RelatesAt(req, steps, snaps, j - 1);
      if step.Executing? && Taken(req, step, before) {
        StuckCallsDoNotBegin(req, before, step.plan);
        FactsHaveEvents(after.trace);
      }
    }
  }

  /**
    The note is lost by every preflight that is recorded: one that stops, be it
    only because the ledger did not answer; one that passes; and that of a call
    which then sends no import, unless the process stops right after noting it
    anew.
   */
  predicate LosesNote(req: Request, step: Step, before: Snap, after: Snap) {
    && !step.Restarting? && Taken(req, step, before)
    && (RecordsStop(step.plan, before.memory, before.source, req)
        || (&& RecordsPreflight(step.plan, before.memory, before.source, req)
            && (step.Executing? ==> FactsOf(after.trace).imported.NotSent? && !StopsRestoring(step.plan, before.source))))
  }

  lemma LostNoteIsStuck(req: Request, before: Snap, step: Step, after: Snap)
    requires ConsistentAt(before, req) && StepRelates(req, before, step, after)
    requires !ResumableAt(before, req) && !before.destination.Absent? && LosesNote(req, step, before, after)
    ensures Stuck(after, req)
  {
    if step.Executing? {
      FactsHaveEvents(after.trace);
      assert CallRelates(req, before, step.plan, after);
    }
  }

  /** So a Workspace that is there without a cutover then blocks its own transfer for ever. */
  lemma LostNoteIsForGood(req: Request, steps: seq<Step>, snaps: seq<Snap>, i: nat, j: nat)
    requires IsHistory(req, steps, snaps) && i < j <= |steps|
    requires !ResumableAt(snaps[i], req) && !snaps[i].destination.Absent?
    requires LosesNote(req, steps[i], snaps[i], snaps[i + 1])
    ensures !ConcludedAt(snaps[j], req)
  {
    assert RelatesAt(req, steps, snaps, i);
    ConsistentThroughout(req, steps, snaps, i);
    LostNoteIsStuck(req, snaps[i], steps[i], snaps[i + 1]);
    StuckForGood(req, steps, snaps, i + 1, j);
  }

  /** At most one Workspace: what the destination once holds is never replaced, by however many imports. */
  lemma {:induction false} OneWorkspaceAtMost(req: Request, steps: seq<Step>, snaps: seq<Snap>, i: nat, j: nat)
    requires IsHistory(req, steps, snaps) && i <= j <= |steps|
    requires !snaps[i].destination.Absent?
    ensures snaps[j].destination == snaps[i].destination
  {
    if i < j {
      OneWorkspaceAtMost(req, steps, snaps, i, j - 1);
      assert RelatesAt(req, steps, snaps, j - 1);
    }
  }
}
