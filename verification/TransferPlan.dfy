/**
  How every await of one transfer call ends. A plan names one answer for each
  request and each write to disk; all interleavings of success, refusal, lost
  reply and process stop are all plans.
 */
module TransferPlan {
  import opened Wrappers
  import opened TransferTypes
  import opened TransferServers
  import opened TransferDecisions

  type FailureStatus = s: nat | !(200 <= s < 300) witness 500

  /**
    Answered: the Server served the request and its answer arrived.
    Failing: a status outside 2xx. Lost: no answer. Garbled: 2xx, but the body
    is not what it should be. Halted: the process stops while waiting.
    `applied` says whether the Server had served the request all the same.
   */
  datatype Answer =
    | Answered
    | Failing(status: FailureStatus, applied: bool)
    | Lost(applied: bool)
    | Garbled(applied: bool)
    | Halted(applied: bool)

  /** What the caller of a request sees. */
  datatype Reply = Accepted | Unreadable | Refused(status: FailureStatus) | Unanswered | Gone

  function StateAfter<S>(a: Answer, before: S, served: Served<S>): S {
    if a.Answered? || a.applied then served.state else before
  }

  function ReplyTo(a: Answer, accepted: bool): Reply {
    match a
    case Answered => if accepted then Accepted else Refused(409)
    case Failing(status, _) => Refused(status)
    case Lost(_) => Unanswered
    case Garbled(_) => Unreadable
    case Halted(_) => Gone
  }

  datatype SaveAnswer = Saved | SaveFailed | Killed(applied: bool)

  datatype StatusAnswer =
    | LedgerRead                                  // the ledger as it is
    | LedgerClaimed(status: Option<SourceStatus>) // whatever a Server may claim
    | LedgerUnavailable(code: string)
    | LedgerHalted

  datatype LocalAnswer = Granted | Denied | Stopped

  /** The body of a 2xx import reply as far as the Desktop reads it. */
  datatype ImportBody = ImportBody(workspaceMatches: bool, manifestHash: Option<string>, receipt: Option<Receipt>)

  datatype Plan = Plan(
    status: StatusAnswer,
    probe: Probe,
    probeHalts: bool,
    savePreflight: SaveAnswer,
    keys: LocalAnswer,
    begin: Answer,
    exportEnd: ExportEnd,
    bundle: Answer,
    saveExported: SaveAnswer,
    saveRestoring: SaveAnswer,
    firstImport: Answer,
    secondImport: Answer,
    importedAt: string,
    garbledBody: ImportBody,
    authorize: LocalAnswer,
    saveVerified: SaveAnswer,
    commit: SaveAnswer,
    saveCutover: SaveAnswer,
    receipt: Answer,
    complete: Answer,
    saveFinal: SaveAnswer,
    rollback: Answer,
    saveFailure: SaveAnswer)

  /** An error status below 500 means that the request was not applied. */
  predicate Plausible(a: Answer) {
    a.Failing? && a.applied ==> 500 <= a.status <= 599
  }

  /** A request whose reply body nobody reads: a 2xx answer means that it was applied. */
  predicate HonestAnswer(a: Answer) { Plausible(a) && (a.Garbled? ==> a.applied) }

  /** A body that is broken on its way does not happen to verify, whatever the bundle. */
  predicate IsBroken(body: ImportBody, req: Request) {
    body.workspaceMatches && body.manifestHash.Some? && body.receipt.Some? ==>
      !ReceiptFits(body.receipt.value, req, body.manifestHash.value)
  }

  predicate HonestImport(a: Answer, p: Plan, req: Request) {
    HonestAnswer(a) && (a.Garbled? ==> IsBroken(p.garbledBody, req))
  }

  predicate HonestAnswers(p: Plan, req: Request) {
    && HonestImport(p.firstImport, p, req) && HonestImport(p.secondImport, p, req)
    && HonestAnswer(p.receipt) && HonestAnswer(p.complete)
  }

  /** Servers say what is the case, or say nothing, or fail; any answer may arrive broken. */
  predicate Honest(p: Plan, req: Request, source: SourceServer, destination: TargetServer) {
    && !p.status.LedgerClaimed?
    && p.probe.sourceState == Some(source.workspace)
    && (p.probe.destinationExists <==> !destination.Absent?)
    && HonestAnswers(p, req)
  }

  /** Every request succeeds and every write reaches the disk. */
  predicate Smooth(p: Plan) {
    && p.status == LedgerRead && !p.probeHalts
    && p.probe.keysOk && p.probe.sourceReplied && p.probe.destinationReplied
    && p.probe.sourceHealthy && p.probe.destinationHealthy
    && p.probe.sameWorkspaceId && p.probe.owner && p.probe.manifest == ManifestPresent
    && p.probe.sourceSchema == p.probe.destinationSchema
    && p.savePreflight == p.saveExported == p.saveRestoring == Saved
    && p.saveVerified == p.commit == p.saveCutover == p.saveFinal == Saved
    && p.keys == p.authorize == Granted
    && p.begin == p.bundle == p.firstImport == p.receipt == p.complete == Answered
    && p.exportEnd.ExportDone?
  }

  /** The process stops at some await of the call. */
  predicate EndsProcess(p: Plan) {
    || p.status.LedgerHalted? || p.probeHalts || p.keys.Stopped? || p.authorize.Stopped?
    || p.begin.Halted? || p.bundle.Halted? || p.firstImport.Halted? || p.secondImport.Halted?
    || p.receipt.Halted? || p.complete.Halted? || p.rollback.Halted?
    || p.savePreflight.Killed? || p.saveExported.Killed? || p.saveRestoring.Killed? || p.saveVerified.Killed?
    || p.commit.Killed? || p.saveCutover.Killed? || p.saveFinal.Killed? || p.saveFailure.Killed?
  }

  /** The source as a call leaves it that asks for an export. */
  function SourceAfterBegin(p: Plan, source: SourceServer): SourceServer {
    StateAfter(p.begin, source, Begin(source, p.exportEnd))
  }

  /** A fresh call gets as far as sending its import. */
  predicate ReachesImport(p: Plan, source: SourceServer) {
    && p.begin.Answered? && Begin(source, p.exportEnd).accepted
    && p.bundle.Answered? && ExportedHash(SourceAfterBegin(p, source)).Some?
    && p.saveExported.Saved? && p.saveRestoring.Saved?
  }

  /** The hash of the bundle that the source would make for this call. */
  function OfferedHash(p: Plan): string {
    if p.exportEnd.ExportDone? then p.exportEnd.hash else ""
  }

  /** The call has its bundle, and its note that a restore is about to begin is on the disk when the process stops. */
  predicate StopsRestoring(p: Plan, source: SourceServer) {
    && p.keys.Granted? && p.begin.Answered? && Begin(source, p.exportEnd).accepted
    && p.bundle.Answered? && ExportedHash(SourceAfterBegin(p, source)).Some?
    && p.saveExported.Saved? && p.saveRestoring.Killed? && p.saveRestoring.applied
  }

  /** The destination after the first import attempt, and what the caller learns of that attempt. */
  function AfterFirstImport(p: Plan, req: Request, destination: TargetServer, hash: string): TargetServer {
    StateAfter(p.firstImport, destination, Import(destination, req, hash, p.importedAt))
  }

  function FirstReply(p: Plan, req: Request, destination: TargetServer, hash: string): Reply {
    ReplyTo(p.firstImport, Import(destination, req, hash, p.importedAt).accepted)
  }

  /** No answer, or a status from 500 to 599: the request may have been applied. */
  predicate LeavesOpen(reply: Reply) {
    reply.Unanswered? || (reply.Refused? && 500 <= reply.status <= 599)
  }

  predicate IsSuccess(reply: Reply) { reply.Accepted? || reply.Unreadable? }

  /** Only an open first attempt is followed by a second. */
  function LastReply(p: Plan, req: Request, destination: TargetServer, hash: string): Reply {
    var first := FirstReply(p, req, destination, hash);
    if LeavesOpen(first)
    then ReplyTo(p.secondImport, Import(AfterFirstImport(p, req, destination, hash), req, hash, p.importedAt).accepted)
    else first
  }

  function AfterImports(p: Plan, req: Request, destination: TargetServer, hash: string): TargetServer {
    var once := AfterFirstImport(p, req, destination, hash);
    if LeavesOpen(FirstReply(p, req, destination, hash))
    then StateAfter(p.secondImport, once, Import(once, req, hash, p.importedAt))
    else once
  }

  /** A 2xx body that verifies: this Workspace, this bundle, and a receipt for both. */
  predicate BodyFits(body: ImportBody, req: Request, hash: string) {
    && body.workspaceMatches && body.manifestHash == Some(hash)
    && body.receipt.Some? && ReceiptFits(body.receipt.value, req, hash)
  }

  /** The import is answered, and what came back verifies. */
  predicate Verifies(p: Plan, req: Request, destination: TargetServer, hash: string) {
    var last := LastReply(p, req, destination, hash);
    last.Accepted? || (last.Unreadable? && BodyFits(p.garbledBody, req, hash))
  }

  /** The write is on the disk, whether or not the process lived to see it. */
  predicate Lands(save: SaveAnswer) { save.Saved? || (save.Killed? && save.applied) }

  /** The source after its receipt was sent and, where that was answered, the request to complete. */
  function AfterClosing(p: Plan, req: Request, receipt: Receipt, source: SourceServer): SourceServer {
    var served := RecordReceipt(source, req, receipt);
    var received := StateAfter(p.receipt, source, served);
    if IsSuccess(ReplyTo(p.receipt, served.accepted)) then StateAfter(p.complete, received, Complete(received)) else received
  }

  /** The status a call learns when the ledger answers. */
  function Learned(p: Plan, source: SourceServer): Option<SourceStatus> {
    if p.status.LedgerClaimed? then p.status.status else StatusOf(source)
  }

  /** The call reaches its guarded part. */
  predicate Begins(p: Plan, memory: Local, source: SourceServer, req: Request) {
    && req.source.connectionId in memory.registry.connections && req.source in memory.registry.targets
    && (p.status.LedgerRead? || p.status.LedgerClaimed?) && !ReplayMismatch(memory.checkpoint, req) && !p.probeHalts
    && var verdict := PreflightVerdict(memory, Learned(p, source), req, p.probe);
    && verdict.Proceeds? && (verdict.recordPreflight ==> p.savePreflight.Saved?)
  }

  /** The preflight passes and is recorded over whatever the checkpoint said before. */
  predicate RecordsPreflight(p: Plan, memory: Local, source: SourceServer, req: Request) {
    Begins(p, memory, source, req) && PreflightVerdict(memory, Learned(p, source), req, p.probe).recordPreflight
  }

  lemma RecordingStartsFresh(p: Plan, memory: Local, source: SourceServer, req: Request)
    ensures RecordsPreflight(p, memory, source, req) ==>
              && Begins(p, memory, source, req)
              && !ResumableCutover(memory, Learned(p, source), req) && !CommittedArchived(Learned(p, source))
  {
    if RecordsPreflight(p, memory, source, req) {
      RecordingIsFresh(memory, Learned(p, source), req, p.probe);
    }
  }

  /** The preflight stops the call safely, and that is recorded over whatever the checkpoint said before. */
  predicate RecordsStop(p: Plan, memory: Local, source: SourceServer, req: Request) {
    && req.source.connectionId in memory.registry.connections && req.source in memory.registry.targets
    && !ReplayMismatch(memory.checkpoint, req) && p.savePreflight.Saved?
    && (p.status.LedgerUnavailable?
        || (&& (p.status.LedgerRead? || p.status.LedgerClaimed?) && !p.probeHalts
            && PreflightVerdict(memory, Learned(p, source), req, p.probe).Stops?))
  }

  /** The call asks the source to export. */
  predicate GoesFresh(p: Plan, memory: Local, source: SourceServer, req: Request) {
    && Begins(p, memory, source, req) && p.keys.Granted?
    && !CommittedArchived(Learned(p, source)) && !ResumableCutover(memory, Learned(p, source), req)
  }

  /** The way a call takes through its guarded part, if it gets there with its keys. */
  datatype Route = Nowhere | Exporting | Resuming | OnlyLocal

  function RouteOf(p: Plan, memory: Local, source: SourceServer, req: Request): Route {
    if !Begins(p, memory, source, req) || !p.keys.Granted? then Nowhere
    else if CommittedArchived(Learned(p, source)) then OnlyLocal
    else if ResumableCutover(memory, Learned(p, source), req) then Resuming
    else Exporting
  }
}
