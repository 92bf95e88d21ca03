/**
  One Desktop process executing a transfer: the mutable flags of a call, the
  registry and checkpoint in memory and on disk, and the two Servers it talks to.
 */
module TransferDesktop {
  import opened Wrappers
  import opened TransferTypes
  import opened TransferServers
  import opened TransferDecisions
  import opened TransferTrace
  import opened TransferPlan
  import opened TransferHistory
  import TransferState

  /** How a step of a call ends; a stopped process restarts from its disk. */
  datatype Flow = Finished | Threw(code: string) | ProcessGone

  datatype Outcome =
    | Done
    | NotStarted(code: string)      // ended before the guarded part of the call
    | FailedTransfer(code: string)  // ended in the failure handler
    | Interrupted                   // the process stopped

  class Desktop {
    var memory: Local
    var disk: Local
    var source: SourceServer
    var destination: TargetServer

    // The local variables of the running call.
    var trace: seq<Event>
    ghost var facts: Facts
    var sourceCompleted: bool
    var registryCutover: bool
    var targetRestored: bool
    var importOutcomeUnknown: bool
    var transportHash: Option<string>
    var receipt: Option<Receipt>

    constructor (local: Local, source: SourceServer, destination: TargetServer)
      ensures memory == disk == local && this.source == source && this.destination == destination
    {
      memory, disk := local, local;
      this.source, this.destination := source, destination;
      trace, facts := [], NOTHING;
      sourceCompleted, registryCutover, targetRestored, importOutcomeUnknown := false, false, false, false;
      transportHash, receipt := None, None;
    }

    ghost predicate Consistent(req: Request)
      reads this`memory, this`disk, this`source, this`destination
    {
      TransferState.Consistent(memory, disk, source, destination, req)
    }

    ghost predicate Resumable(req: Request)
      reads this`memory, this`disk, this`source, this`destination
    {
      TransferState.Resumable(memory, disk, source, destination, req)
    }

    /** Before the cutover, with a genuine receipt or none in hand. */
    ghost predicate Pending(req: Request)
      reads this`memory, this`disk, this`source, this`destination, this`receipt
    {
      TransferState.Pending(memory, disk, receipt, source, destination, req)
    }

    /** After the cutover, with the receipt that finishes the transfer in hand. */
    ghost predicate Secured(req: Request)
      reads this`memory, this`disk, this`source, this`destination, this`receipt
    {
      TransferState.Secured(memory, disk, receipt, source, destination, req)
    }

    predicate Committed()
      reads this`source
    {
      TransferState.RowIn(source, {LedgerState.Committed})
    }

    /** What every method keeps: no checkpoint of phase preflight carries a receipt. */
    ghost predicate Bare()
      reads this`memory, this`disk
    {
      PreflightBare(memory) && PreflightBare(disk)
    }

    /** The trace is lawful and `facts` condenses it. */
    ghost predicate Traced()
      reads this`trace, this`facts
    {
      Lawful(trace) && facts == FactsOf(trace)
    }

    /** The flags of the running call say what its trace says. */
    ghost predicate InCall()
      reads this`trace, this`facts, this`sourceCompleted, this`registryCutover, this`targetRestored, this`importOutcomeUnknown
    {
      && Traced() && !facts.rolledBack
      && (facts.cutover ==> registryCutover)
      && (!facts.closing.NotClosing? ==> facts.cutover)
      && (registryCutover ==> !importOutcomeUnknown)
      && (registryCutover && facts.MayHoldImport() ==> facts.cutover)
      && (importOutcomeUnknown <==> facts.ImportOpen())
      && (!registryCutover ==> (facts.MayHoldImport() <==> importOutcomeUnknown || targetRestored))
      && (sourceCompleted ==> facts.cutover)
      && (!facts.terminal ==> (sourceCompleted <==> facts.closing.CompleteKnown?))
    }

    /** Neither copy notes that an import may have left. */
    predicate NoNote()
      reads this`memory, this`disk
    {
      !TransferState.Recovering(memory) && !TransferState.Recovering(disk)
    }

    /** Both copies do. */
    predicate Noted()
      reads this`memory, this`disk
    {
      TransferState.Recovering(memory) && TransferState.Recovering(disk)
    }

    // ----- steps -----------------------------------------------------------

    method Emit(e: Event)
      requires Traced() && Allowed(facts, e)
      modifies this`trace, this`facts
      ensures trace == old(trace) + [e] && Traced() && facts == Learn(old(facts), e)
    {
      LawfulStep(trace, e);
      trace := trace + [e];
      facts := Learn(facts, e);
    }

    /** The process stops here and starts again from what its disk holds. */
    method Restart()
      modifies this`memory
      ensures memory == disk
    {
      memory := disk;
    }

    method AskSource(request: ServerRequest, answer: Answer, served: Served<SourceServer>) returns (reply: Reply)
      requires Traced() && Allowed(facts, Sent(request))
      modifies this`trace, this`facts, this`source
      ensures trace == old(trace) + [Sent(request)] && Traced() && facts == Learn(old(facts), Sent(request))
      ensures source == StateAfter(answer, old(source), served)
      ensures reply == ReplyTo(answer, served.accepted)
    {
      Emit(Sent(request));
      source := StateAfter(answer, source, served);
      reply := ReplyTo(answer, served.accepted);
    }

    /** Record a checkpoint in memory first, then on disk. */
    method WriteCheckpoint(c: Checkpoint, save: SaveAnswer) returns (flow: Flow)
      requires Bare() && (c.phase == PreflightPhase ==> c.receipt.None?)
      modifies this`memory, this`disk
      ensures Bare()
      ensures flow.Finished? <==> save.Saved?
      ensures flow.Threw? <==> save.SaveFailed?
      ensures !flow.ProcessGone? ==> memory == old(memory).(checkpoint := Some(c))
      ensures flow.Finished? ==> disk == memory
      ensures flow.Threw? ==> disk == old(disk)
      ensures flow.ProcessGone? ==> memory == disk
      ensures flow.ProcessGone? ==> disk == if save.applied then old(memory).(checkpoint := Some(c)) else old(disk)
    {
      memory := memory.(checkpoint := Some(c));
      match save
      case Saved =>
        disk := memory;
        flow := Finished;
      case SaveFailed =>
        flow := Threw("workspace_connection_registry_save_failed");
      case Killed(applied) =>
        disk := if applied then memory else disk;
        Restart();
        flow := ProcessGone;
    }

    /** Save the cut-over registry before any process state changes. */
    method CommitCutover(req: Request, save: SaveAnswer) returns (flow: Flow)
      requires Traced() && Allowed(facts, LocalCutover)
      requires Bare()
      modifies this`memory, this`disk, this`trace, this`facts
      ensures Bare()
      ensures Traced()
      ensures flow.Finished? <==> old(Cutover(memory.registry, req)).Some? && save.Saved?
      ensures facts == if old(Cutover(memory.registry, req)).Some? && Lands(save) then Learn(old(facts), LocalCutover) else old(facts)
      ensures flow.Finished? || (flow.ProcessGone? && save.Killed? && save.applied) ==>
                && facts == Learn(old(facts), LocalCutover)
                && old(Cutover(memory.registry, req)).Some?
                && memory == disk == old(memory).(registry := old(Cutover(memory.registry, req)).value)
      ensures TransferState.MovesRegistry(old(memory), old(disk), memory, disk, req, old(Cutover(memory.registry, req)).Some? && Lands(save))
      ensures flow.Threw? ==> memory == old(memory) && disk == old(disk) && facts == old(facts)
      ensures flow.ProcessGone? ==> save.Killed? && (!save.applied ==> memory == disk == old(disk) && facts == old(facts))
    {
      var next := Cutover(memory.registry, req);
      if next.None? {
        return Threw("workspace_target_cutover_failed");
      }
      match save
      case Saved =>
        disk := memory.(registry := next.value);
        memory := disk;
        Emit(LocalCutover);
        flow := Finished;
      case SaveFailed =>
        flow := Threw("workspace_connection_registry_save_failed");
      case Killed(applied) =>
        if applied {
          disk := memory.(registry := next.value);
          Emit(LocalCutover);
        }
        Restart();
        flow := ProcessGone;
    }

    // ----- before the guarded part -----------------------------------------

    /** What a verdict makes of the two local copies. */
    method ApplyVerdict(req: Request, verdict: Verdict, save: SaveAnswer) returns (flow: Flow)
      requires Bare()
      modifies this`memory, this`disk
      ensures Bare()
      ensures flow.Finished? <==> verdict.Proceeds? && (verdict.recordPreflight ==> save.Saved?)
      ensures flow.Finished? ==>
                if verdict.recordPreflight
                then memory == old(memory).(checkpoint := Some(PreflightCheckpoint(req))) && disk == memory
                else memory == old(memory) && disk == old(disk)
      ensures TransferState.KeepsRegistry(old(memory), old(disk), memory, disk)
      ensures TransferState.NoNewRecovery(old(memory), old(disk), memory, disk)
      ensures IsRecorded(verdict) && save.Saved? ==> NoNote()
      ensures flow.ProcessGone? ==> save.Killed?
      ensures verdict.Throws? ==> flow.Threw? && memory == old(memory) && disk == old(disk)
      ensures old(Consistent(req)) && (old(Resumable(req)) ==> TransferState.KeepsReceipt(verdict, Committed())) ==>
                Consistent(req) && (Resumable(req) <==> old(Resumable(req)))
    {
      match verdict
      case Throws(code) =>
        flow := Threw(code);
      case Stops(code, archived, restored) =>
        var stopped := StoppedCheckpoint(req, memory.checkpoint, code, archived, restored);
        if Consistent(req) {
          TransferState.WriteKeeps(memory, source, destination, req, stopped);
        }
        flow := WriteCheckpoint(stopped, save);
        if flow.Finished? {
          flow := Threw(code);
        }
      case Proceeds(recordPreflight) =>
        flow := Finished;
        if recordPreflight {
          if Consistent(req) {
            TransferState.WriteKeeps(memory, source, destination, req, PreflightCheckpoint(req));
          }
          flow := WriteCheckpoint(PreflightCheckpoint(req), save);
        }
    }

    /** The preflight, given the ledger status the caller has read, for any Servers. */
    method JudgePreflight(req: Request, plan: Plan, status: Option<SourceStatus>) returns (flow: Flow)
      requires Bare()
      modifies this`memory, this`disk
      ensures Bare()
      ensures flow.Finished? <==>
                && !plan.probeHalts
                && var verdict := PreflightVerdict(old(memory), status, req, plan.probe);
                && verdict.Proceeds? && (verdict.recordPreflight ==> plan.savePreflight.Saved?)
      ensures flow.Finished? ==> memory.registry == old(memory).registry
      ensures TransferState.KeepsRegistry(old(memory), old(disk), memory, disk)
      ensures TransferState.NoNewRecovery(old(memory), old(disk), memory, disk)
      ensures !plan.probeHalts && plan.savePreflight.Saved? && IsRecorded(PreflightVerdict(old(memory), status, req, plan.probe)) ==>
                NoNote()
      ensures flow.ProcessGone? ==> EndsProcess(plan)
      ensures flow.Finished? && !CommittedArchived(status) ==>
                && SourceUsable(memory, req)
                && (ResumableCutover(old(memory), status, req) ==> plan.probe.sourceState == Some(ReadOnly))
      ensures old(ReplayMismatch(memory.checkpoint, req)) && !plan.probeHalts ==>
                flow.Threw? && memory == old(memory) && disk == old(disk)
      ensures old(Consistent(req)) && (old(Resumable(req)) ==>
                TransferState.KeepsReceipt(PreflightVerdict(old(memory), status, req, plan.probe), Committed())) ==>
                Consistent(req) && (Resumable(req) <==> old(Resumable(req)))
    {
      if plan.probeHalts {
        Restart();
        return ProcessGone;
      }
      var verdict := PreflightVerdict(memory, status, req, plan.probe);
      if verdict.Proceeds? && !CommittedArchived(status) {
        PassingIsUsable(memory, status, req, plan.probe);
        if ResumableCutover(memory, status, req) {
          ResumeMeetsReadOnlySource(memory, status, req, plan.probe);
        }
      }
      flow := ApplyVerdict(req, verdict, plan.savePreflight);
    }

    /** The same with truthful Servers. */
    method RunPreflight(req: Request, plan: Plan, status: Option<SourceStatus>) returns (flow: Flow)
      requires Bare()
      modifies this`memory, this`disk
      ensures Bare()
      ensures flow.Finished? <==>
                && !plan.probeHalts
                && var verdict := PreflightVerdict(old(memory), status, req, plan.probe);
                && verdict.Proceeds? && (verdict.recordPreflight ==> plan.savePreflight.Saved?)
      ensures flow.Finished? ==> memory.registry == old(memory).registry
      ensures TransferState.KeepsRegistry(old(memory), old(disk), memory, disk)
      ensures TransferState.NoNewRecovery(old(memory), old(disk), memory, disk)
      ensures !plan.probeHalts && plan.savePreflight.Saved? && IsRecorded(PreflightVerdict(old(memory), status, req, plan.probe)) ==>
                NoNote()
      ensures flow.ProcessGone? ==> EndsProcess(plan)
      ensures flow.Finished? && !CommittedArchived(status) ==>
                && SourceUsable(memory, req)
                && (ResumableCutover(old(memory), status, req) ==> plan.probe.sourceState == Some(ReadOnly))
      ensures old(ReplayMismatch(memory.checkpoint, req)) && !plan.probeHalts ==>
                flow.Threw? && memory == old(memory) && disk == old(disk)
      ensures old(Consistent(req)) && Honest(plan, req, source, destination) && status == StatusOf(source) ==>
                && Consistent(req) && (Resumable(req) <==> old(Resumable(req)))
                && (flow.Finished? && !Resumable(req) ==> TransferState.FreshStart(source))
                && (Smooth(plan) && old(Promising(req, plan)) ==> flow.Finished?)
    {
      if Consistent(req) && Honest(plan, req, source, destination) && status == StatusOf(source) {
        VerdictIsSound(req, plan);
      }
      flow := JudgePreflight(req, plan, status);
    }

    /** The cutover is durable, or the transfer can start or start again: a smooth call must succeed, and only then can. */
    ghost predicate Promising(req: Request, plan: Plan)
      reads this`memory, this`disk, this`source, this`destination
    {
      Resumable(req) || TransferState.Restartable(memory, source, destination, req, OfferedHash(plan))
    }

    /** With truthful Servers the verdict never costs the receipt and passes only what may go on. */
    lemma VerdictIsSound(req: Request, plan: Plan)
      requires Consistent(req) && Honest(plan, req, source, destination)
      ensures var verdict := PreflightVerdict(memory, StatusOf(source), req, plan.probe);
              && (Resumable(req) ==> TransferState.KeepsReceipt(verdict, Committed()))
              && (verdict.Proceeds? && !Resumable(req) ==> TransferState.FreshStart(source))
              && (Smooth(plan) && Promising(req, plan) ==> verdict.Proceeds?)
    {
      if Resumable(req) {
        TransferState.VerdictKeepsResumable(memory, disk, source, destination, req, plan.probe);
        if Smooth(plan) {
          TransferState.ResumablePassesPreflight(memory, disk, source, destination, req, plan.probe);
        }
      } else {
        if PreflightVerdict(memory, StatusOf(source), req, plan.probe).Proceeds? {
          TransferState.PassingIsFreshStart(memory, disk, source, destination, req, plan.probe);
        }
        if Smooth(plan) && Promising(req, plan) {
          TransferState.RestartablePasses(memory, disk, source, destination, req, OfferedHash(plan), plan.probe);
        }
      }
    }

    // ----- the fresh path ---------------------------------------------------

    /** Ask the source to begin; an accepted begin leaves an exported bundle behind. */
    method BeginTransfer(req: Request, plan: Plan) returns (flow: Flow)
      requires Traced() && BeforeImport(facts) && facts.exported.NotBegun?
      modifies this`trace, this`facts, this`source
      ensures Traced() && BeforeImport(facts) && facts.terminal == old(facts).terminal && facts.exported.BeginSent?
      ensures source == SourceAfterBegin(plan, old(source))
      ensures flow.Finished? <==> plan.begin.Answered? && Begin(old(source), plan.exportEnd).accepted
      ensures flow.ProcessGone? <==> plan.begin.Halted?
    {
      var begun := AskSource(BeginRequest, plan.begin, Begin(source, plan.exportEnd));
      if begun.Accepted? {
        flow := Finished;
      } else if begun.Gone? {
        flow := ProcessGone;
      } else {
        flow := Threw(if begun.Unreadable? then "workspace_transfer_id_mismatch" else "workspace_transfer_begin_failed");
      }
    }

    /** Read the bundle, which the source hands out only in state exported. */
    method ReadBundle(plan: Plan) returns (flow: Flow)
      requires Traced() && BeforeImport(facts) && facts.exported.BeginSent?
      modifies this`trace, this`facts, this`transportHash
      ensures Traced() && BeforeImport(facts) && facts.terminal == old(facts).terminal && !facts.exported.NotBegun?
      ensures flow.Finished? <==> plan.bundle.Answered? && ExportedHash(source).Some?
      ensures flow.Finished? ==> transportHash == ExportedHash(source) && HoldsBundle()
      ensures flow.ProcessGone? <==> plan.bundle.Halted?
    {
      Emit(Sent(BundleRequest));
      var hash := ExportedHash(source);
      match ReplyTo(plan.bundle, hash.Some?) {
        case Accepted =>
          transportHash := hash;
          Emit(BundleAccepted(hash.value));
          flow := Finished;
        case Gone => flow := ProcessGone;
        case Unreadable => flow := Threw("workspace_transfer_bundle_invalid");
        case _ => flow := Threw("workspace_transfer_bundle_request_failed");
      }
    }

    /** The bundle in hand is the one that the trace has accepted. */
    ghost predicate HoldsBundle()
      reads this`facts, this`transportHash
    {
      transportHash.Some? && facts.exported == Bundled(transportHash.value)
    }

    /** The two requests that bring the bundle. */
    method FetchBundle(req: Request, plan: Plan) returns (flow: Flow)
      requires Traced() && BeforeImport(facts) && facts.exported.NotBegun?
      modifies this`trace, this`facts, this`source, this`transportHash
      ensures Traced() && BeforeImport(facts) && facts.terminal == old(facts).terminal && !facts.exported.NotBegun?
      ensures source == SourceAfterBegin(plan, old(source))
      ensures flow.Finished? <==>
                && plan.begin.Answered? && Begin(old(source), plan.exportEnd).accepted
                && plan.bundle.Answered? && ExportedHash(source).Some?
      ensures flow.Finished? ==> transportHash == ExportedHash(source) && HoldsBundle()
      ensures flow.ProcessGone? ==> plan.begin.Halted? || plan.bundle.Halted?
    {
      flow := BeginTransfer(req, plan);
      if flow.Finished? {
        flow := ReadBundle(plan);
      }
    }

    /** Begin, read the bundle, and record that it is about to be restored elsewhere. */
    method ExportBundle(req: Request, plan: Plan) returns (flow: Flow)
      requires InCall() && !registryCutover && !sourceCompleted && BeforeImport(facts) && facts.exported.NotBegun?
      requires plan.keys.Granted?
      requires Bare()
      modifies this`trace, this`facts, this`source, this`memory, this`disk, this`transportHash
      ensures Bare()
      ensures InCall() && BeforeImport(facts) && facts.terminal == old(facts).terminal && !facts.exported.NotBegun?
      ensures source == SourceAfterBegin(plan, old(source))
      ensures flow.Finished? <==> ReachesImport(plan, old(source))
      ensures flow.Finished? ==> transportHash == ExportedHash(source) && HoldsBundle()
      ensures flow.Finished? ==> memory.registry == old(memory).registry
      ensures flow.Finished? ==> Noted()
      ensures old(NoNote()) && !flow.Finished? && !StopsRestoring(plan, old(source)) ==>
                !TransferState.Recovering(disk) && (flow.ProcessGone? ==> NoNote())
      ensures TransferState.KeepsRegistry(old(memory), old(disk), memory, disk)
      ensures flow.ProcessGone? ==> EndsProcess(plan)
      ensures old(Pending(req) && TransferState.FreshStart(source)) ==> Pending(req)
    {
      if Pending(req) && TransferState.FreshStart(source) {
        BeginKeepsPending(plan, req, memory, disk, receipt, source, destination);
      }
      flow := FetchBundle(req, plan);
      if flow.Finished? {
        flow := RecordExport(req, plan);
      } else if flow.ProcessGone? {
        Restart();
      }
    }

    method RecordExport(req: Request, plan: Plan) returns (flow: Flow)
      requires Bare()
      modifies this`memory, this`disk
      ensures Bare()
      ensures flow.Finished? <==> plan.saveExported.Saved? && plan.saveRestoring.Saved?
      ensures flow.Finished? ==> memory.registry == old(memory).registry
      ensures flow.Finished? ==> Noted()
      ensures old(NoNote()) && !flow.Finished? && !(plan.saveExported.Saved? && plan.saveRestoring.Killed? && plan.saveRestoring.applied) ==>
                !TransferState.Recovering(disk) && (flow.ProcessGone? ==> NoNote())
      ensures TransferState.KeepsRegistry(old(memory), old(disk), memory, disk)
      ensures flow.ProcessGone? ==> plan.saveExported.Killed? || plan.saveRestoring.Killed?
      ensures old(Pending(req)) ==> Pending(req)
    {
      flow := Record(req, TransferState.ProgressCheckpoint(req, ExportedPhase, None, None), plan.saveExported);
      if flow.Finished? {
        flow := Record(req, TransferState.ProgressCheckpoint(req, RestoringPhase, transportHash, None), plan.saveRestoring);
      }
    }

    /** Record how far a call before its cutover has come. */
    method Record(req: Request, c: Checkpoint, save: SaveAnswer) returns (flow: Flow)
      requires Bare() && c.phase !in {PreflightPhase, CutoverPhase, ArchivedPhase}
      modifies this`memory, this`disk
      ensures Bare()
      ensures flow.Finished? <==> save.Saved?
      ensures TransferState.KeepsRegistry(old(memory), old(disk), memory, disk)
      ensures flow.ProcessGone? <==> save.Killed?
      ensures !flow.ProcessGone? ==> memory == old(memory).(checkpoint := Some(c))
      ensures flow.Finished? ==> disk == memory
      ensures flow.Threw? ==> disk == old(disk)
      ensures flow.ProcessGone? ==> memory == disk && disk == if save.applied then old(memory).(checkpoint := Some(c)) else old(disk)
      ensures old(Pending(req)) && TransferState.Proper(c, source, destination, req) ==> Pending(req)
    {
      if Pending(req) && TransferState.Proper(c, source, destination, req) {
        TransferState.WriteKeeps(memory, source, destination, req, c);
      }
      flow := WriteCheckpoint(c, save);
    }

    // ----- import -----------------------------------------------------------

    /** Send the import; a second call sends the identical operation again. */
    method SendImport(req: Request, plan: Plan, answer: Answer) returns (reply: Reply, body: ImportBody)
      requires Traced() && Allowed(facts, Sent(ImportRequest)) && transportHash.Some?
      modifies this`trace, this`facts, this`destination
      ensures Traced() && facts == Learn(old(facts), Sent(ImportRequest))
      ensures destination == StateAfter(answer, old(destination), Import(old(destination), req, transportHash.value, plan.importedAt))
      ensures reply == ReplyTo(answer, Import(old(destination), req, transportHash.value, plan.importedAt).accepted)
      ensures reply.Accepted? ==> Confirms(body, req)
      ensures !reply.Accepted? ==> body == plan.garbledBody
    {
      Emit(Sent(ImportRequest));
      var served := Import(destination, req, transportHash.value, plan.importedAt);
      destination := StateAfter(answer, destination, served);
      reply := ReplyTo(answer, served.accepted);
      body := if reply.Accepted? then ImportBody(true, transportHash, Some(destination.receipt)) else plan.garbledBody;
    }

    /** An import reply that says what the destination now holds. */
    ghost predicate Confirms(body: ImportBody, req: Request)
      requires transportHash.Some?
      reads this`transportHash, this`destination
    {
      && destination.Restored? && body == ImportBody(true, transportHash, Some(destination.receipt))
      && ReceiptFits(destination.receipt, req, transportHash.value)
    }

    /** Whether the error of a failed import says that its outcome is unknown; only the message is looked at. */
    method ReadOutcome(reply: Reply) returns (unknown: bool)
      requires reply.Refused? || reply.Unanswered?
      ensures unknown <==> LeavesOpen(reply)
    {
      if reply.Unanswered? {
        UnknownExactlyForServerErrors(500);
        unknown := ImportOutcomeUnknown(UNAVAILABLE_MESSAGE);
      } else {
        UnknownExactlyForServerErrors(reply.status);
        unknown := ImportOutcomeUnknown(StatusMessage(reply.status));
      }
    }

    /** The first attempt; a definite refusal settles that nothing was imported. */
    method TryImport(req: Request, plan: Plan) returns (reply: Reply, body: ImportBody)
      requires Traced() && BeforeImport(facts) && !importOutcomeUnknown && HoldsBundle()
      modifies this`trace, this`facts, this`destination, this`importOutcomeUnknown
      ensures Traced() && SameButImport(facts, old(facts))
      ensures reply == FirstReply(plan, req, old(destination), transportHash.value)
      ensures destination == AfterFirstImport(plan, req, old(destination), transportHash.value)
      ensures importOutcomeUnknown <==> LeavesOpen(reply)
      ensures facts.imported == if reply.Refused? && !importOutcomeUnknown then RefusedOnce else InDoubt(false)
      ensures reply.Accepted? ==> Confirms(body, req)
      ensures !reply.Accepted? ==> body == plan.garbledBody
    {
      reply, body := SendImport(req, plan, plan.firstImport);
      if reply.Refused? || reply.Unanswered? {
        importOutcomeUnknown := ReadOutcome(reply);
        if !importOutcomeUnknown {
          Emit(ImportRefused);
        }
      }
    }

    /**
      Import, and send the identical import once more exactly when the first
      attempt is left open; ends with some 2xx body or an error.
     */
    method ImportWithRetry(req: Request, plan: Plan) returns (flow: Flow, body: ImportBody)
      requires InCall() && BeforeImport(facts) && !registryCutover && !targetRestored && !sourceCompleted && HoldsBundle()
      modifies this`trace, this`facts, this`destination, this`importOutcomeUnknown
      ensures Traced() && SameButImport(facts, old(facts))
      ensures facts.imported == KnowledgeAfter(FirstReply(plan, req, old(destination), transportHash.value))
      ensures destination == AfterImports(plan, req, old(destination), transportHash.value)
      ensures flow.Threw? ==> importOutcomeUnknown == facts.imported.InDoubt?
      ensures var last := LastReply(plan, req, old(destination), transportHash.value);
              && (flow.Finished? <==> IsSuccess(last)) && (flow.ProcessGone? <==> last.Gone?)
              && (last.Accepted? ==> Confirms(body, req))
      ensures Verifies(plan, req, old(destination), transportHash.value) <==>
                flow.Finished? && BodyFits(body, req, transportHash.value)
    {
      var reply: Reply;
      reply, body := TryImport(req, plan);
      if importOutcomeUnknown {
        reply, body := SendImport(req, plan, plan.secondImport);
      }
      match reply
      case Accepted | Unreadable => flow := Finished;
      case Gone => flow := ProcessGone;
      case Refused(status) => flow := Threw(StatusMessage(status));
      case Unanswered => flow := Threw(UNAVAILABLE_MESSAGE);
    }

    function KnowledgeAfter(first: Reply): ImportKnowledge {
      if first.Refused? && !LeavesOpen(first) then RefusedOnce else InDoubt(LeavesOpen(first))
    }

    predicate ReceiptAccepted(body: ImportBody, req: Request, hash: string) {
      body.receipt.Some? && ReceiptFits(body.receipt.value, req, hash)
    }

    /** Import and verify: the outcome stays unknown until Workspace id, manifest and receipt all fit. */
    method ImportAndVerify(req: Request, plan: Plan) returns (flow: Flow)
      requires InCall() && BeforeImport(facts) && !registryCutover && !targetRestored && !sourceCompleted && HoldsBundle()
      requires transportHash == ExportedHash(source)
      modifies this`trace, this`facts, this`destination, this`importOutcomeUnknown, this`targetRestored, this`receipt
      ensures Traced() && SameButImport(facts, old(facts))
      ensures !flow.ProcessGone? ==> InCall()
      ensures flow.Finished? <==> facts.imported.VerifiedImport?
      ensures if flow.Finished? then receipt.Some? else receipt == old(receipt)
      ensures ImportMoved(plan, req, source, true, old(destination), destination, facts.imported)
      ensures flow.Finished? <==> Verifies(plan, req, old(destination), transportHash.value)
      ensures flow.ProcessGone? ==> EndsProcess(plan)
      ensures LastReply(plan, req, old(destination), transportHash.value).Accepted? ==>
                && flow.Finished? && destination.Restored? && receipt == Some(destination.receipt)
                && ReceiptFits(destination.receipt, req, transportHash.value)
    {
      var body: ImportBody;
      flow, body := ImportWithRetry(req, plan);
      if flow.Finished? {
        targetRestored := true;
        importOutcomeUnknown := true;
        flow := VerifyImport(req, body);
      }
    }

    /** Import and verify; with honest Servers the receipt taken is the one of the Workspace that is there. */
    method Restore(req: Request, plan: Plan) returns (flow: Flow)
      requires InCall() && BeforeImport(facts) && !registryCutover && !targetRestored && !sourceCompleted && HoldsBundle()
      requires transportHash == ExportedHash(source)
      modifies this`trace, this`facts, this`memory, this`destination, this`importOutcomeUnknown, this`targetRestored, this`receipt
      ensures memory == if flow.ProcessGone? then disk else old(memory)
      ensures Traced() && SameButImport(facts, old(facts))
      ensures !flow.ProcessGone? ==> InCall()
      ensures flow.Finished? <==> facts.imported.VerifiedImport?
      ensures flow.Finished? ==> receipt.Some?
      ensures ImportMoved(plan, req, source, true, old(destination), destination, facts.imported)
      ensures flow.Finished? <==> Verifies(plan, req, old(destination), transportHash.value)
      ensures flow.ProcessGone? ==> EndsProcess(plan)
      ensures old(Pending(req)) && HonestAnswers(plan, req) ==>
                && Pending(req)
                && (LastReply(plan, req, old(destination), transportHash.value).Accepted? ==> flow.Finished?)
    {
      if Pending(req) {
        ImportsKeepPending(plan, req, memory, disk, receipt, source, destination, transportHash.value);
      }
      flow := ImportAndVerify(req, plan);
      if flow.Finished? && old(Pending(req)) && HonestAnswers(plan, req) {
        ConfirmedIsPending(req, memory, disk, old(receipt), source, destination);
      }
      if flow.ProcessGone? {
        Restart();
      }
    }

    /** Take the receipt of an import reply whose Workspace id, manifest and receipt all fit. */
    method VerifyImport(req: Request, body: ImportBody) returns (flow: Flow)
      requires Traced() && !facts.rolledBack && facts.imported.InDoubt? && importOutcomeUnknown && HoldsBundle()
      modifies this`trace, this`facts, this`importOutcomeUnknown, this`receipt
      ensures Traced() && SameButImport(facts, old(facts))
      ensures !flow.ProcessGone?
      ensures importOutcomeUnknown <==> !flow.Finished?
      ensures if flow.Finished? then facts.imported.VerifiedImport? && receipt == body.receipt && receipt.Some?
              else facts.imported.InDoubt? && receipt == old(receipt)
      ensures flow.Finished? <==> BodyFits(body, req, transportHash.value)
    {
      flow := Finished;
      if !body.workspaceMatches {
        flow := Threw("workspace_transfer_import_workspace_mismatch");
      } else if body.manifestHash != transportHash {
        flow := Threw("workspace_transfer_receipt_manifest_mismatch");
      } else if !ReceiptAccepted(body, req, transportHash.value) {
        flow := Threw("workspace_transfer_receipt_invalid");
      } else {
        receipt := body.receipt;
        importOutcomeUnknown := false;
        Emit(ImportVerified(transportHash.value, receipt.value));
      }
    }

    // ----- cutover and completion -------------------------------------------

    /** Authorize the destination, record the verified receipt, and switch the registry. */
    method CutOver(req: Request, plan: Plan) returns (flow: Flow)
      requires InCall() && facts.imported.VerifiedImport? && !registryCutover && !facts.cutover && facts.closing.NotClosing?
      requires receipt.Some?
      requires Bare()
      modifies this`trace, this`facts, this`memory, this`disk, this`registryCutover
      ensures Bare()
      ensures Traced()
      ensures SameButCutover(facts, old(facts))
      ensures !flow.ProcessGone? ==> InCall() && (registryCutover <==> facts.cutover)
      ensures flow.Finished? ==> facts.cutover
      ensures facts.cutover <==> plan.authorize.Granted? && plan.saveVerified.Saved? && Cutover(old(memory).registry, req).Some? && Lands(plan.commit)
      ensures flow.Finished? <==> facts.cutover && plan.commit.Saved? && plan.saveCutover.Saved?
      ensures TransferState.MovesRegistry(old(memory), old(disk), memory, disk, req, facts.cutover)
      ensures flow.ProcessGone? ==> EndsProcess(plan)
      ensures old(Pending(req)) && TransferState.RowIn(source, {Exported}) ==>
                if facts.cutover then Secured(req) else Pending(req)
      ensures old(Pending(req)) && Smooth(plan) ==> flow.Finished?
    {
      if plan.authorize.Stopped? {
        Restart();
        return ProcessGone;
      } else if plan.authorize.Denied? {
        return Threw("workspace_selection_denied");
      }
      flow := Record(req, TransferState.ProgressCheckpoint(req, VerifiedPhase, transportHash, receipt), plan.saveVerified);
      if flow.Finished? {
        flow := SwitchRegistry(req, plan);
      }
    }

    /** Commit the registry cutover and then record it. */
    method SwitchRegistry(req: Request, plan: Plan) returns (flow: Flow)
      requires InCall() && facts.imported.VerifiedImport? && !registryCutover && !facts.cutover && facts.closing.NotClosing?
      requires receipt.Some? && memory == disk && TransferState.ReceiptOf(memory) == receipt
      requires !memory.checkpoint.value.sourceArchived
      requires Bare()
      modifies this`trace, this`facts, this`memory, this`disk, this`registryCutover
      ensures Bare()
      ensures Traced()
      ensures SameButCutover(facts, old(facts))
      ensures !flow.ProcessGone? ==> InCall() && (registryCutover <==> facts.cutover)
      ensures flow.Finished? ==> facts.cutover
      ensures facts.cutover <==> Cutover(old(memory).registry, req).Some? && Lands(plan.commit)
      ensures flow.Finished? <==> facts.cutover && plan.commit.Saved? && plan.saveCutover.Saved?
      ensures TransferState.MovesRegistry(old(memory), old(disk), memory, disk, req, facts.cutover)
      ensures flow.ProcessGone? ==> EndsProcess(plan)
      ensures old(Pending(req)) && TransferState.RowIn(source, {Exported}) ==>
                if facts.cutover then Secured(req) else Pending(req)
      ensures old(Pending(req)) && plan.commit.Saved? && plan.saveCutover.Saved? ==> flow.Finished?
    {
      if Pending(req) {
        TransferState.CutoverMarks(memory, source, destination, req);
      }
      flow := CommitCutover(req, plan.commit);
      if flow.Finished? {
        registryCutover := true;
        flow := RecordSecured(req, TransferState.ProgressCheckpoint(req, CutoverPhase, transportHash, receipt), plan.saveCutover);
      }
    }

    /** Record how far a call after its cutover has come. */
    method RecordSecured(req: Request, c: Checkpoint, save: SaveAnswer) returns (flow: Flow)
      requires Bare() && c.phase != PreflightPhase
      modifies this`memory, this`disk
      ensures Bare()
      ensures flow.Finished? <==> save.Saved?
      ensures TransferState.KeepsRegistry(old(memory), old(disk), memory, disk)
      ensures flow.ProcessGone? <==> save.Killed?
      ensures !flow.ProcessGone? ==> memory == old(memory).(checkpoint := Some(c))
      ensures flow.Finished? ==> disk == memory
      ensures old(Secured(req)) && TransferState.Proper(c, source, destination, req)
              && (Committed() || (!c.sourceArchived && c.receipt == receipt))
              ==> Secured(req)
    {
      if Secured(req) && TransferState.Proper(c, source, destination, req) {
        TransferState.WriteKeeps(memory, source, destination, req, c);
      }
      flow := WriteCheckpoint(c, save);
    }

    /** Hand the receipt to the source. */
    method SubmitReceipt(req: Request, plan: Plan) returns (flow: Flow)
      requires Traced() && Allowed(facts, Sent(ReceiptRequest)) && receipt.Some?
      modifies this`trace, this`facts, this`source
      ensures Traced() && SameButClosing(facts, old(facts))
      ensures facts.closing == if flow.Finished? then ReceiptKnown else ReceiptSent
      ensures var served := RecordReceipt(old(source), req, receipt.value);
              && source == StateAfter(plan.receipt, old(source), served)
              && (flow.Finished? <==> IsSuccess(ReplyTo(plan.receipt, served.accepted)))
      ensures flow.ProcessGone? ==> plan.receipt.Halted?
    {
      var reply := AskSource(ReceiptRequest, plan.receipt, RecordReceipt(source, req, receipt.value));
      if reply.Gone? {
        flow := ProcessGone;
      } else if reply.Refused? || reply.Unanswered? {
        flow := Threw("workspace_transfer_receipt_submit_failed");
      } else {
        Emit(ReceiptAcknowledged);
        flow := Finished;
      }
    }

    /** Tell the source to complete, which archives it. */
    method SubmitComplete(req: Request, plan: Plan) returns (flow: Flow)
      requires Traced() && Allowed(facts, Sent(CompleteRequest))
      modifies this`trace, this`facts, this`source
      ensures Traced() && SameButClosing(facts, old(facts))
      ensures facts.closing == if flow.Finished? then CompleteKnown else CompleteSent
      ensures source == StateAfter(plan.complete, old(source), Complete(old(source)))
      ensures flow.ProcessGone? ==> plan.complete.Halted?
      ensures flow.Finished? <==> IsSuccess(ReplyTo(plan.complete, Complete(old(source)).accepted))
    {
      var reply := AskSource(CompleteRequest, plan.complete, Complete(source));
      if reply.Gone? {
        flow := ProcessGone;
      } else if reply.Refused? || reply.Unanswered? {
        flow := Threw("workspace_transfer_complete_failed");
      } else {
        Emit(CompleteAcknowledged);
        flow := Finished;
      }
    }

    /** The two closing requests, one after the other. */
    method SendClosing(req: Request, plan: Plan) returns (flow: Flow)
      requires Traced() && Allowed(facts, Sent(ReceiptRequest)) && receipt.Some?
      modifies this`trace, this`facts, this`source
      ensures Traced() && SameButClosing(facts, old(facts)) && !facts.closing.NotClosing?
      ensures source == AfterClosing(plan, req, receipt.value, old(source))
      ensures var served := RecordReceipt(old(source), req, receipt.value);
              && (facts.closing in {CompleteSent, CompleteKnown} <==> IsSuccess(ReplyTo(plan.receipt, served.accepted)))
              && (flow.Finished? <==>
                    && IsSuccess(ReplyTo(plan.receipt, served.accepted))
                    && IsSuccess(ReplyTo(plan.complete, Complete(StateAfter(plan.receipt, old(source), served)).accepted)))
      ensures flow.Finished? <==> facts.closing.CompleteKnown?
      ensures flow.ProcessGone? ==> plan.receipt.Halted? || plan.complete.Halted?
    {
      flow := SubmitReceipt(req, plan);
      if flow.Finished? {
        flow := SubmitComplete(req, plan);
      }
    }

    /** Hand the receipt to the source and then complete the transfer there. */
    method CloseSource(req: Request, plan: Plan) returns (flow: Flow)
      requires InCall() && registryCutover && !sourceCompleted && Allowed(facts, Sent(ReceiptRequest)) && receipt.Some?
      requires Bare()
      modifies this`trace, this`facts, this`source, this`memory, this`sourceCompleted
      ensures Bare()
      ensures Traced() && SameButClosing(facts, old(facts)) && !facts.closing.NotClosing?
      ensures SourceMoved(plan, req, old(source), receipt, source, facts)
      ensures !flow.ProcessGone? ==> InCall()
      ensures TransferState.KeepsRegistry(old(memory), old(disk), memory, disk)
      ensures flow.ProcessGone? ==> EndsProcess(plan)
      ensures flow.Finished? ==> sourceCompleted && facts.closing.CompleteKnown? && memory == old(memory)
      ensures old(Secured(req) && !Committed()) && HonestAnswers(plan, req) ==>
                && Secured(req) && (sourceCompleted ==> Committed())
                && (plan.receipt.Answered? && plan.complete.Answered? ==> flow.Finished?)
    {
      if Secured(req) && !Committed() && HonestAnswers(plan, req) {
        ClosingKeepsSecured(plan, req, memory, disk, receipt, source, destination);
      }
      flow := SendClosing(req, plan);
      if flow.ProcessGone? {
        Restart();
      } else if flow.Finished? {
        sourceCompleted := true;
      }
    }

    // ----- the three ways through the guarded part --------------------------

    /** With the bundle in hand: restore and verify it at the destination, switch the registry. */
    method Land(req: Request, plan: Plan) returns (flow: Flow)
      requires InCall() && BeforeImport(facts) && !registryCutover && !targetRestored && !sourceCompleted && HoldsBundle()
      requires transportHash == ExportedHash(source) && !facts.terminal
      requires Bare() && Noted()
      modifies this`trace, this`facts, this`memory, this`disk, this`destination,
               this`registryCutover, this`targetRestored, this`importOutcomeUnknown, this`receipt
      ensures Bare()
      ensures Traced() && facts.exported == old(facts).exported && !facts.rolledBack && !facts.terminal && facts.closing.NotClosing?
      ensures ImportMoved(plan, req, source, true, old(destination), destination, facts.imported)
      ensures facts.imported.VerifiedImport? <==> Verifies(plan, req, old(destination), transportHash.value)
      ensures facts.cutover <==>
                && facts.imported.VerifiedImport? && plan.authorize.Granted? && plan.saveVerified.Saved?
                && Cutover(old(memory).registry, req).Some? && Lands(plan.commit)
      ensures flow.Finished? <==> facts.cutover && plan.commit.Saved? && plan.saveCutover.Saved?
      ensures facts.ImportOpen() ==> Noted()
      ensures TransferState.MovesRegistry(old(memory), old(disk), memory, disk, req, facts.cutover)
      ensures flow.ProcessGone? ==> EndsProcess(plan)
      ensures !flow.ProcessGone? ==> InCall() && (registryCutover <==> facts.cutover)
      ensures flow.Finished? ==> receipt.Some?
      ensures old(Pending(req)) && HonestAnswers(plan, req) ==>
                && (if facts.cutover then Secured(req) && !Committed() else Pending(req))
                && (Smooth(plan) && LastReply(plan, req, old(destination), transportHash.value).Accepted? ==> flow.Finished?)
    {
      flow := Restore(req, plan);
      if flow.Finished? {
        flow := CutOver(req, plan);
      }
    }

    /** Export the bundle, restore and verify it at the destination, switch the registry. */
    method MoveAcross(req: Request, plan: Plan) returns (flow: Flow)
      requires InCall() && BeforeImport(facts) && !registryCutover && !targetRestored && !sourceCompleted
      requires facts.exported.NotBegun? && !facts.terminal
      requires plan.keys.Granted?
      requires Bare()
      modifies this`trace, this`facts, this`memory, this`disk, this`source, this`destination,
               this`registryCutover, this`targetRestored, this`importOutcomeUnknown, this`transportHash, this`receipt
      ensures Bare()
      ensures Traced() && !facts.rolledBack && facts.terminal == old(facts).terminal && facts.closing.NotClosing?
      ensures Moved(plan, req, true, old(source), old(destination), receipt, source, destination, facts)
      ensures facts.imported.VerifiedImport? <==>
                && ReachesImport(plan, old(source))
                && Verifies(plan, req, old(destination), ExportedHash(SourceAfterBegin(plan, old(source))).GetOr(""))
      ensures facts.cutover <==>
                && facts.imported.VerifiedImport? && plan.authorize.Granted? && plan.saveVerified.Saved?
                && Cutover(old(memory).registry, req).Some? && Lands(plan.commit)
      ensures flow.Finished? <==> facts.cutover && plan.commit.Saved? && plan.saveCutover.Saved?
      ensures facts.ImportOpen() ==> Noted()
      ensures old(NoNote()) && facts.imported.NotSent? && !StopsRestoring(plan, old(source)) ==>
                !TransferState.Recovering(disk) && (flow.ProcessGone? ==> NoNote())
      ensures TransferState.MovesRegistry(old(memory), old(disk), memory, disk, req, facts.cutover)
      ensures flow.ProcessGone? ==> EndsProcess(plan)
      ensures !flow.ProcessGone? ==> InCall() && (registryCutover <==> facts.cutover)
      ensures flow.Finished? ==> facts.cutover && facts.imported.VerifiedImport? && receipt.Some?
      ensures old(Pending(req) && TransferState.FreshStart(source)) && HonestAnswers(plan, req) ==>
                && (if facts.cutover then Secured(req) && !Committed() else Pending(req))
                && (Smooth(plan) && old(TransferState.Startable(source, destination, req, OfferedHash(plan))) ==> flow.Finished?)
    {
      flow := ExportBundle(req, plan);
      if flow.Finished? {
        flow := Land(req, plan);
      }
    }

    /** A transfer from its beginning: the registry is not at the destination yet. */
    method FreshPath(req: Request, plan: Plan) returns (flow: Flow)
      requires InCall() && BeforeImport(facts) && !registryCutover && !targetRestored && !sourceCompleted
      requires facts.exported.NotBegun? && !facts.terminal
      requires plan.keys.Granted?
      requires Bare()
      modifies this
      ensures Bare()
      ensures Traced() && !facts.rolledBack && facts.terminal == old(facts).terminal
      ensures Moved(plan, req, true, old(source), old(destination), receipt, source, destination, facts)
      ensures Proceeded(plan, req, Exporting, Cutover(old(memory).registry, req).Some?, old(source), old(destination), receipt, facts)
      ensures facts.ImportOpen() ==> Noted()
      ensures old(NoNote()) && facts.imported.NotSent? && !StopsRestoring(plan, old(source)) ==>
                !TransferState.Recovering(disk) && (flow.ProcessGone? ==> NoNote())
      ensures TransferState.MovesRegistry(old(memory), old(disk), memory, disk, req, facts.cutover)
      ensures flow.ProcessGone? ==> EndsProcess(plan)
      ensures !flow.ProcessGone? ==> InCall() && (registryCutover <==> facts.cutover)
      ensures flow.Finished? ==> facts.closing.CompleteKnown?
      ensures old(Pending(req) && TransferState.FreshStart(source)) && HonestAnswers(plan, req) ==>
                && (if facts.cutover then Secured(req) else Pending(req))
                && (flow.Finished? ==> Concluded(req))
                && (!flow.ProcessGone? && sourceCompleted ==> Committed())
                && (Smooth(plan) && old(TransferState.Startable(source, destination, req, OfferedHash(plan))) ==> flow.Finished?)
    {
      flow := MoveAcross(req, plan);
      if flow.Finished? {
        flow := CloseSource(req, plan);
      }
      if flow.Finished? {
        flow := Conclude(req, plan, transportHash);
      }
    }

    predicate Concluded(req: Request)
      reads this`source, this`memory, this`disk
    {
      TransferState.Over(memory, disk, source, req)
    }

    /** Record that the source has completed. */
    method Conclude(req: Request, plan: Plan, hash: Option<string>) returns (flow: Flow)
      requires sourceCompleted
      requires Bare()
      modifies this`memory, this`disk
      ensures Bare()
      ensures flow.Finished? <==> plan.saveFinal.Saved?
      ensures TransferState.KeepsRegistry(old(memory), old(disk), memory, disk)
      ensures flow.ProcessGone? ==> plan.saveFinal.Killed?
      ensures old(Secured(req)) && Committed() ==> Secured(req)
      ensures flow.Finished? && Committed() && SupersededBy(old(memory).registry, req.source) == Some(req.destination) ==>
                Concluded(req)
    {
      flow := RecordSecured(req, TransferState.ProgressCheckpoint(req, ArchivedPhase, hash, receipt), plan.saveFinal);
    }

    /** Authorize the destination anew and commit the registry cutover again. */
    method Recommit(req: Request, plan: Plan) returns (flow: Flow)
      requires Traced() && Allowed(facts, LocalCutover) && !facts.cutover
      requires Bare()
      modifies this`trace, this`facts, this`memory, this`disk
      ensures Bare()
      ensures Traced() && SameButCutover(facts, old(facts))
      ensures flow.Finished? ==> facts.cutover && memory == disk && memory.checkpoint == old(memory).checkpoint
                                 && SupersededBy(memory.registry, req.source) == Some(req.destination)
      ensures flow.Threw? ==> memory == old(memory) && disk == old(disk) && facts == old(facts)
      ensures facts.cutover <==>
                plan.authorize.Granted? && Cutover(old(memory).registry, req).Some? && Lands(plan.commit)
      ensures flow.Finished? <==> plan.authorize.Granted? && Cutover(old(memory).registry, req).Some? && plan.commit.Saved?
      ensures TransferState.MovesRegistry(old(memory), old(disk), memory, disk, req, facts.cutover)
      ensures flow.ProcessGone? ==> EndsProcess(plan)
      ensures old(Secured(req)) ==> Secured(req) && (Smooth(plan) ==> flow.Finished?)
    {
      if Secured(req) {
        TransferState.CutoverMarks(memory, source, destination, req);
      }
      if plan.authorize.Stopped? {
        Restart();
        flow := ProcessGone;
      } else if plan.authorize.Denied? {
        flow := Threw("workspace_selection_denied");
      } else {
        flow := CommitCutover(req, plan.commit);
      }
    }

    /** With the cutover committed again: close the source, unless it is archived already, and record it. */
    method CloseResumed(req: Request, plan: Plan, previousHash: Option<string>) returns (flow: Flow)
      requires InCall() && registryCutover && !sourceCompleted && Allowed(facts, Sent(ReceiptRequest)) && receipt.Some?
      requires plan.probe.sourceState == Some(ReadOnly)
      requires Bare()
      modifies this`trace, this`facts, this`source, this`memory, this`disk, this`sourceCompleted
      ensures Bare()
      ensures Traced() && SameButClosing(facts, old(facts)) && !facts.closing.NotClosing?
      ensures SourceMoved(plan, req, old(source), receipt, source, facts)
      ensures !flow.ProcessGone? ==> InCall()
      ensures TransferState.KeepsRegistry(old(memory), old(disk), memory, disk)
      ensures flow.ProcessGone? ==> EndsProcess(plan)
      ensures flow.Finished? ==> sourceCompleted && facts.closing.CompleteKnown?
      ensures old(Secured(req) && !Committed() && SupersededBy(memory.registry, req.source) == Some(req.destination))
              && HonestAnswers(plan, req) ==>
                && Secured(req)
                && (flow.Finished? ==> Concluded(req))
                && (!flow.ProcessGone? && sourceCompleted ==> Committed())
                && (Smooth(plan) ==> flow.Finished?)
    {
      flow := Finished;
      if plan.probe.sourceState != Some(WorkspaceState.Archived) {
        flow := CloseSource(req, plan);
      }
      if flow.Finished? {
        flow := Conclude(req, plan, FirstOf(previousHash, Some(receipt.value.sourceHash)));
      }
    }

    /** After the local cutover: commit it once more and close the source with the receipt that was kept. */
    method ResumePath(req: Request, plan: Plan, previousHash: Option<string>) returns (flow: Flow)
      requires InCall() && BeforeImport(facts) && !registryCutover && !targetRestored && !sourceCompleted && !facts.terminal
      requires facts.exported.NotBegun?
      requires plan.probe.sourceState == Some(ReadOnly)
      requires Bare()
      modifies this
      ensures Bare()
      ensures Traced() && !facts.rolledBack && facts.terminal == old(facts).terminal
      ensures Moved(plan, req, false, old(source), old(destination), receipt, source, destination, facts)
      ensures Proceeded(plan, req, Resuming, Cutover(old(memory).registry, req).Some?, old(source), old(destination), receipt, facts)
      ensures TransferState.MovesRegistry(old(memory), old(disk), memory, disk, req, facts.cutover)
      ensures flow.ProcessGone? ==> EndsProcess(plan)
      ensures !flow.ProcessGone? ==> InCall() && registryCutover
      ensures flow.Finished? ==> facts.closing.CompleteKnown?
      ensures old(Secured(req) && !Committed()) && HonestAnswers(plan, req) ==>
                && Secured(req)
                && (flow.Finished? ==> Concluded(req))
                && (!flow.ProcessGone? && sourceCompleted ==> Committed())
                && (Smooth(plan) ==> flow.Finished?)
      ensures !flow.ProcessGone? ==> registryCutover && targetRestored
    {
      registryCutover := true;
      targetRestored := true;
      if receipt.None? {
        return Threw("workspace_transfer_receipt_required");
      }
      flow := Recommit(req, plan);
      if flow.Finished? {
        flow := CloseResumed(req, plan, previousHash);
      }
    }

    static function CommittedCheckpoint(req: Request, status: Option<SourceStatus>, previous: Option<Checkpoint>): Checkpoint {
      var durable := if status.None? then None else FirstOf(status.value.sourceHash, status.value.targetHash);
      Checkpoint(req.source, req.destination, ArchivedPhase, true, Some(true), Some(false),
                 FirstOf(durable, if previous.Some? then previous.value.integrityHash else None),
                 if previous.Some? then previous.value.receipt else None, None)
    }

    /** A committed transfer is recorded as archived and restored, with nothing to clean up and the hash the Server holds. */
    static lemma CommittedIsFinal(req: Request, status: SourceStatus, previous: Option<Checkpoint>)
      ensures var c := CommittedCheckpoint(req, Some(status), previous);
              && c.source == req.source && c.destination == req.destination
              && c.phase == ArchivedPhase && c.sourceArchived && c.targetRestored == Some(true)
              && c.targetCleanupRequired == Some(false) && c.failureCode == None
              && c.receipt == (if previous.Some? then previous.value.receipt else None)
              && (status.sourceHash.Some? ==> c.integrityHash == status.sourceHash)
              && (status.sourceHash.None? && status.targetHash.Some? ==> c.integrityHash == status.targetHash)
              && (status.sourceHash.None? && status.targetHash.None? && previous.Some? ==>
                    c.integrityHash == previous.value.integrityHash)
    {
    }

    /** The last word on a committed transfer keeps the receipt that was recorded before. */
    method RecordCommitted(req: Request, status: Option<SourceStatus>, save: SaveAnswer) returns (flow: Flow)
      requires Bare()
      modifies this`memory, this`disk
      ensures Bare()
      ensures TransferState.KeepsRegistry(old(memory), old(disk), memory, disk)
      ensures flow.ProcessGone? ==> save.Killed?
      ensures old(Secured(req)) && Committed() ==>
                && Secured(req) && (save.Saved? ==> flow.Finished?)
                && (flow.Finished? && old(SupersededBy(memory.registry, req.source)) == Some(req.destination) ==> Concluded(req))
    {
      flow := RecordSecured(req, CommittedCheckpoint(req, status, memory.checkpoint), save);
    }

    /** The source is already committed and archived: only the local cutover is left. */
    method CommittedPath(req: Request, plan: Plan, status: Option<SourceStatus>) returns (flow: Flow)
      requires InCall() && BeforeImport(facts) && !registryCutover && !targetRestored && !sourceCompleted && facts.terminal
      requires facts.exported.NotBegun?
      requires Bare()
      modifies this`trace, this`facts, this`memory, this`disk, this`registryCutover, this`sourceCompleted
      ensures Bare()
      ensures Traced() && !facts.rolledBack && facts.terminal
      ensures Moved(plan, req, false, old(source), old(destination), receipt, source, destination, facts)
      ensures Proceeded(plan, req, OnlyLocal, Cutover(old(memory).registry, req).Some?, old(source), old(destination), receipt, facts)
      ensures TransferState.MovesRegistry(old(memory), old(disk), memory, disk, req, facts.cutover)
      ensures flow.ProcessGone? ==> EndsProcess(plan)
      ensures !flow.ProcessGone? ==> InCall() && (registryCutover <==> facts.cutover)
      ensures old(Secured(req)) && Committed() ==>
                Secured(req) && (flow.Finished? ==> Concluded(req)) && (Smooth(plan) ==> flow.Finished?)
    {
      flow := Recommit(req, plan);
      if flow.Finished? {
        registryCutover := true;
        sourceCompleted := true;
        flow := RecordCommitted(req, status, plan.saveFinal);
      }
    }

    // ----- failures ---------------------------------------------------------

    function FailureCheckpoint(req: Request, committed: bool, code: string): Checkpoint
      reads this
    {
      Checkpoint(
        req.source, req.destination,
        if importOutcomeUnknown then RestoringPhase
        else if sourceCompleted then ArchivedPhase
        else if registryCutover then CutoverPhase
        else FailedPhase,
        sourceCompleted || committed,
        if targetRestored then Some(true) else None,
        if importOutcomeUnknown then Some(true) else if targetRestored then Some(!registryCutover) else None,
        transportHash,
        receipt,
        Some(if importOutcomeUnknown then "workspace_transfer_import_outcome_unknown" else code))
    }

    /** Ask the source to roll back; whatever comes of it, the first error stays. */
    method AskRollback(req: Request, plan: Plan) returns (gone: bool)
      requires Traced() && Allowed(facts, Sent(RollbackRequest))
      modifies this`trace, this`facts, this`source
      ensures Traced() && facts == Learn(old(facts), Sent(RollbackRequest))
      ensures source == StateAfter(plan.rollback, old(source), Rollback(old(source)))
      ensures gone ==> plan.rollback.Halted?
    {
      var reply := AskSource(RollbackRequest, plan.rollback, Rollback(source));
      gone := reply.Gone?;
    }

    /** Roll back where that is safe, and record what the failed call left behind. */
    method HandleFailure(req: Request, plan: Plan, keysHeld: bool, committed: bool, failed: Checkpoint) returns (flow: Flow)
      requires InCall() && (committed <==> facts.terminal)
      requires failed.source == req.source && failed.destination == req.destination
      requires failed.phase != PreflightPhase && failed.receipt == receipt
      requires Bare()
      modifies this`trace, this`facts, this`source, this`memory, this`disk
      ensures Bare()
      ensures Traced()
      ensures facts.rolledBack <==> keysHeld && !registryCutover && !committed && !importOutcomeUnknown
      ensures SameButRollback(facts, old(facts))
      ensures source == if facts.rolledBack then StateAfter(plan.rollback, old(source), Rollback(old(source))) else old(source)
      ensures failed.phase == RestoringPhase && !failed.sourceArchived && importOutcomeUnknown && old(TransferState.Recovering(disk)) ==> Noted()
      ensures failed.phase != RestoringPhase && old(!TransferState.Recovering(disk)) ==> NoNote()
      ensures TransferState.KeepsRegistry(old(memory), old(disk), memory, disk)
      ensures flow.ProcessGone? ==> EndsProcess(plan)
      ensures !flow.ProcessGone? ==> memory.checkpoint == Some(failed)
      ensures old(Pending(req)) && failed.phase !in {CutoverPhase, ArchivedPhase} ==> Pending(req)
      ensures old(Secured(req)) && (old(Committed()) || !(facts.rolledBack || failed.sourceArchived)) ==> Secured(req)
    {
      RollbackKeepsPending(plan, req, memory, disk, receipt, source, destination);
      var gone := false;
      if keysHeld && !registryCutover && !sourceCompleted && !committed && !importOutcomeUnknown {
        gone := AskRollback(req, plan);
      }
      if gone {
        Restart();
        flow := ProcessGone;
      } else {
        flow := RecordFailure(req, plan, failed);
      }
    }

    method RecordFailure(req: Request, plan: Plan, failed: Checkpoint) returns (flow: Flow)
      requires Bare() && failed.phase != PreflightPhase && failed.receipt == receipt
      requires failed.source == req.source && failed.destination == req.destination
      modifies this`memory, this`disk
      ensures Bare()
      ensures !flow.ProcessGone? ==> memory.checkpoint == Some(failed)
      ensures failed.phase == RestoringPhase && !failed.sourceArchived && old(TransferState.Recovering(disk)) ==> Noted()
      ensures failed.phase != RestoringPhase && old(!TransferState.Recovering(disk)) ==> NoNote()
      ensures TransferState.KeepsRegistry(old(memory), old(disk), memory, disk)
      ensures flow.ProcessGone? ==> plan.saveFailure.Killed?
      ensures old(Pending(req)) && failed.phase !in {CutoverPhase, ArchivedPhase} ==> Pending(req)
      ensures old(Secured(req)) && (Committed() || !failed.sourceArchived) ==> Secured(req)
    {
      if Pending(req) || Secured(req) {
        TransferState.WriteKeeps(memory, source, destination, req, failed);
      }
      flow := WriteCheckpoint(failed, plan.saveFailure);
    }

    /** What the handler records says truly how far the call came. */
    lemma FailureIsTruthful(req: Request, committed: bool, code: string)
      requires InCall() && (committed <==> facts.terminal)
      ensures Truthful(FailureCheckpoint(req, committed, code), facts)
    {
    }

    /** The checkpoint of the handler; a rollback that may come before it is written changes nothing it says. */
    method DescribeFailure(req: Request, committed: bool, code: string) returns (failed: Checkpoint)
      requires InCall() && (committed <==> facts.terminal)
      ensures Truthful(failed, facts) && failed.sourceArchived == (sourceCompleted || committed)
      ensures failed.source == req.source && failed.destination == req.destination
      ensures failed.phase != PreflightPhase && failed.receipt == receipt && failed.integrityHash == transportHash
      ensures failed.phase in {CutoverPhase, ArchivedPhase} ==> registryCutover || sourceCompleted
      ensures failed.failureCode == Some(if facts.ImportOpen() then "workspace_transfer_import_outcome_unknown" else code)
      ensures failed.targetRestored == if targetRestored then Some(true) else None
    {
      FailureIsTruthful(req, committed, code);
      failed := FailureCheckpoint(req, committed, code);
    }

    /** The failure handler as a whole; an error while the checkpoint is saved replaces the first one. */
    method Fail(req: Request, plan: Plan, keysHeld: bool, committed: bool, code: string) returns (outcome: Outcome)
      requires InCall() && (committed <==> facts.terminal)
      requires Bare()
      modifies this`trace, this`facts, this`source, this`memory, this`disk
      ensures Bare() && Traced()
      ensures outcome.Interrupted? || outcome.FailedTransfer?
      ensures outcome.Interrupted? ==> EndsProcess(plan)
      ensures outcome.FailedTransfer? ==> memory.checkpoint.Some? && Truthful(memory.checkpoint.value, facts)
      ensures facts.rolledBack <==> keysHeld && !registryCutover && !committed && !importOutcomeUnknown
      ensures old(facts).ImportOpen() && !committed && old(Noted()) ==> Noted()
      ensures !old(facts).ImportOpen() && old(!TransferState.Recovering(disk)) ==> NoNote()
      ensures TransferState.KeepsRegistry(old(memory), old(disk), memory, disk)
      ensures SameButRollback(facts, old(facts))
      ensures source == if facts.rolledBack then StateAfter(plan.rollback, old(source), Rollback(old(source))) else old(source)
      ensures (old(Pending(req)) && !registryCutover && !committed)
              || (old(Secured(req)) && (old(Committed()) || !(facts.rolledBack || sourceCompleted || committed))) ==>
                Consistent(req) && (Resumable(req) <==> old(Resumable(req)))
    {
      var failed := DescribeFailure(req, committed, code);
      var flow := HandleFailure(req, plan, keysHeld, committed, failed);
      outcome := if flow.ProcessGone? then Interrupted else FailedTransfer(if flow.Threw? then flow.code else code);
    }

    // ----- whole calls ------------------------------------------------------

    /** The branch a call is about to take is the right one, and its receipt is genuine. */
    ghost predicate StartedWell(req: Request, resumable: bool)
      reads this`facts, this`memory, this`disk, this`source, this`destination, this`receipt
    {
      && (Committed() <==> facts.terminal) && (facts.terminal || resumable <==> Resumable(req))
      && if Resumable(req) then Secured(req) else Pending(req) && TransferState.FreshStart(source)
    }

    function RouteTaken(plan: Plan, resumable: bool, committed: bool): Route {
      if !plan.keys.Granted? then Nowhere else if committed then OnlyLocal else if resumable then Resuming else Exporting
    }

    /** The part of a call whose errors reach the failure handler. */
    method GuardedPart(req: Request, plan: Plan, status: Option<SourceStatus>, resumable: bool) returns (flow: Flow)
      requires InCall() && BeforeImport(facts) && !registryCutover && !targetRestored && !sourceCompleted
      requires facts.exported.NotBegun?
      requires facts.terminal <==> CommittedArchived(status)
      requires resumable && !CommittedArchived(status) ==> plan.probe.sourceState == Some(ReadOnly)
      requires Bare()
      modifies this
      ensures Bare()
      ensures Traced() && !facts.rolledBack && facts.terminal == old(facts).terminal
      ensures Moved(plan, req, plan.keys.Granted? && !resumable && !facts.terminal,
                    old(source), old(destination), receipt, source, destination, facts)
      ensures Proceeded(plan, req, RouteTaken(plan, resumable, facts.terminal), Cutover(old(memory).registry, req).Some?,
                        old(source), old(destination), receipt, facts)
      ensures facts.ImportOpen() ==> Noted()
      ensures old(NoNote()) && !resumable && !facts.terminal && facts.imported.NotSent? && !StopsRestoring(plan, old(source)) ==>
                !TransferState.Recovering(disk) && (flow.ProcessGone? ==> NoNote())
      ensures TransferState.MovesRegistry(old(memory), old(disk), memory, disk, req, facts.cutover)
      ensures flow.ProcessGone? ==> EndsProcess(plan)
      ensures !flow.ProcessGone? ==> InCall()
      ensures !plan.keys.Granted? ==> !flow.Finished? && facts == old(facts)
      ensures !flow.ProcessGone? && resumable && !facts.terminal && plan.keys.Granted? ==> registryCutover
      ensures !flow.ProcessGone? && (!resumable || facts.terminal) ==> (registryCutover <==> facts.cutover)
      ensures flow.Finished? ==> facts.closing.CompleteKnown? || facts.terminal
      ensures old(StartedWell(req, resumable)) && HonestAnswers(plan, req) ==>
                && Consistent(req) && (Resumable(req) <==> old(Resumable(req)) || facts.cutover)
                && (if Resumable(req) then Secured(req) else Pending(req))
                && (facts.terminal ==> Committed())
                && (!flow.ProcessGone? && sourceCompleted ==> Committed())
                && (flow.Finished? ==> Concluded(req))
                && (Smooth(plan) && old(Resumable(req) || TransferState.Startable(source, destination, req, OfferedHash(plan))) ==> flow.Finished?)
    {
      if plan.keys.Stopped? {
        Restart();
        return ProcessGone;
      } else if plan.keys.Denied? {
        return Threw("workspace_transfer_identity_required");
      }
      if CommittedArchived(status) {
        flow := CommittedPath(req, plan, status);
      } else if resumable {
        flow := ResumePath(req, plan, if memory.checkpoint.Some? then memory.checkpoint.value.integrityHash else None);
      } else {
        flow := FreshPath(req, plan);
      }
    }

    /** Forget the local variables of the previous call. */
    method Reset()
      modifies this`trace, this`facts, this`sourceCompleted, this`registryCutover, this`targetRestored,
               this`importOutcomeUnknown, this`transportHash, this`receipt
      ensures trace == [] && facts == NOTHING && InCall() && BeforeImport(facts) && facts.exported.NotBegun?
      ensures !registryCutover && !targetRestored && !sourceCompleted && receipt.None?
    {
      trace, facts := [], NOTHING;
      sourceCompleted, registryCutover, targetRestored, importOutcomeUnknown := false, false, false, false;
      transportHash, receipt := None, None;
    }

    /** Read the source ledger; without an answer the call stops and trusts nothing. */
    method ReadStatus(req: Request, plan: Plan) returns (flow: Flow, status: Option<SourceStatus>)
      requires Bare()
      modifies this`memory, this`disk
      ensures Bare()
      ensures flow.Finished? <==>
                && req.source.connectionId in old(memory).registry.connections && req.source in old(memory).registry.targets
                && (plan.status.LedgerRead? || plan.status.LedgerClaimed?) && !old(ReplayMismatch(memory.checkpoint, req))
      ensures flow.Finished? ==> status == Learned(plan, source) && memory == old(memory) && disk == old(disk)
      ensures TransferState.KeepsRegistry(old(memory), old(disk), memory, disk)
      ensures TransferState.NoNewRecovery(old(memory), old(disk), memory, disk)
      ensures req.source.connectionId in old(memory).registry.connections && req.source in old(memory).registry.targets
              && !old(ReplayMismatch(memory.checkpoint, req)) && plan.status.LedgerUnavailable? && plan.savePreflight.Saved?
              ==> NoNote()
      ensures flow.ProcessGone? ==> EndsProcess(plan)
      ensures old(ReplayMismatch(memory.checkpoint, req)) && !plan.status.LedgerHalted? ==>
                flow.Threw? && memory == old(memory) && disk == old(disk)
      ensures old(Consistent(req)) ==> Consistent(req) && (Resumable(req) <==> old(Resumable(req)))
    {
      status := Learned(plan, source);
      if req.source.connectionId !in memory.registry.connections || req.source !in memory.registry.targets {
        flow := Threw("workspace_transfer_source_not_found");
      } else if plan.status.LedgerHalted? {
        Restart();
        flow := ProcessGone;
      } else if ReplayMismatch(memory.checkpoint, req) {
        flow := Threw("workspace_transfer_id_replay_mismatch");
      } else if plan.status.LedgerUnavailable? {
        flow := ApplyVerdict(req, StopWith(plan.status.code), plan.savePreflight);
      } else {
        flow := Finished;
      }
    }

    /** Choose the branch, repair the receipt and run the preflight. */
    method Decide(req: Request, plan: Plan, status: Option<SourceStatus>) returns (flow: Flow, resumable: bool)
      requires Bare()
      modifies this`memory, this`disk, this`receipt
      ensures Bare()
      ensures resumable == ResumableCutover(old(memory), status, req)
      ensures flow.Finished? <==>
                && !plan.probeHalts
                && var verdict := PreflightVerdict(old(memory), status, req, plan.probe);
                && verdict.Proceeds? && (verdict.recordPreflight ==> plan.savePreflight.Saved?)
      ensures flow.Finished? ==> memory.registry == old(memory).registry
      ensures TransferState.KeepsRegistry(old(memory), old(disk), memory, disk)
      ensures TransferState.NoNewRecovery(old(memory), old(disk), memory, disk)
      ensures !plan.probeHalts && plan.savePreflight.Saved? && IsRecorded(PreflightVerdict(old(memory), status, req, plan.probe)) ==>
                NoNote()
      ensures flow.ProcessGone? ==> EndsProcess(plan)
      ensures flow.Finished? && resumable && !CommittedArchived(status) ==> plan.probe.sourceState == Some(ReadOnly)
      ensures old(Consistent(req)) && Honest(plan, req, source, destination) && status == StatusOf(source) ==>
                && Consistent(req) && (Resumable(req) <==> old(Resumable(req)))
                && (CommittedArchived(status) <==> Committed())
                && (resumable || Committed() <==> Resumable(req))
                && (flow.Finished? ==> if Resumable(req) then Secured(req) else Pending(req) && TransferState.FreshStart(source))
                && (Smooth(plan) && old(Promising(req, plan)) ==> flow.Finished?)
    {
      resumable := ResumableCutover(memory, status, req);
      receipt := ResumeReceipt(memory.checkpoint, status, req);
      if Consistent(req) && status == StatusOf(source) {
        TransferState.ResumeKeepsReceipt(memory, source, destination, req);
        TransferState.ResumableMeansMarked(memory, disk, source, destination, req);
      }
      flow := RunPreflight(req, plan, status);
      if flow.Finished? && !CommittedArchived(status) && !SourceUsable(memory, req) {
        flow := Threw("workspace_transfer_source_superseded");
      }
    }

    /** Begin a call: forget the previous one and read the source ledger. */
    method Open(req: Request, plan: Plan) returns (flow: Flow, status: Option<SourceStatus>)
      requires Bare()
      modifies this`memory, this`disk, this`trace, this`facts, this`sourceCompleted, this`registryCutover,
               this`targetRestored, this`importOutcomeUnknown, this`transportHash, this`receipt
      ensures Bare()
      ensures InCall() && BeforeImport(facts) && facts.exported.NotBegun? && (trace == [] || trace == [StatusRead(Learned(plan, source))])
      ensures !registryCutover && !targetRestored && !sourceCompleted
      ensures flow.Finished? <==>
                && req.source.connectionId in old(memory).registry.connections && req.source in old(memory).registry.targets
                && (plan.status.LedgerRead? || plan.status.LedgerClaimed?) && !old(ReplayMismatch(memory.checkpoint, req))
      ensures flow.Finished? ==>
                && status == Learned(plan, source) && (facts.terminal <==> CommittedArchived(status))
                && memory == old(memory) && disk == old(disk)
      ensures TransferState.KeepsRegistry(old(memory), old(disk), memory, disk)
      ensures TransferState.NoNewRecovery(old(memory), old(disk), memory, disk)
      ensures req.source.connectionId in old(memory).registry.connections && req.source in old(memory).registry.targets
              && !old(ReplayMismatch(memory.checkpoint, req)) && plan.status.LedgerUnavailable? && plan.savePreflight.Saved?
              ==> NoNote()
      ensures flow.ProcessGone? ==> EndsProcess(plan)
      ensures old(ReplayMismatch(memory.checkpoint, req)) && !plan.status.LedgerHalted? ==>
                flow.Threw? && memory == old(memory) && disk == old(disk)
      ensures old(Consistent(req)) ==> Consistent(req) && (Resumable(req) <==> old(Resumable(req)))
    {
      Reset();
      flow, status := ReadStatus(req, plan);
      if flow.Finished? {
        Emit(StatusRead(status));
      }
    }

    /** Everything of a call before its first request that changes a Server. */
    method Start(req: Request, plan: Plan) returns (flow: Flow, status: Option<SourceStatus>, resumable: bool)
      requires Bare()
      modifies this`memory, this`disk, this`trace, this`facts, this`sourceCompleted, this`registryCutover,
               this`targetRestored, this`importOutcomeUnknown, this`transportHash, this`receipt
      ensures Bare()
      ensures InCall() && BeforeImport(facts) && facts.exported.NotBegun? && (trace == [] || trace == [StatusRead(Learned(plan, source))])
      ensures !registryCutover && !targetRestored && !sourceCompleted
      ensures flow.Finished? <==> Begins(plan, old(memory), source, req)
      ensures TransferState.KeepsRegistry(old(memory), old(disk), memory, disk)
      ensures TransferState.NoNewRecovery(old(memory), old(disk), memory, disk)
      ensures RecordsStop(plan, old(memory), source, req) || RecordsPreflight(plan, old(memory), source, req) ==> NoNote()
      ensures RecordsPreflight(plan, old(memory), source, req) ==> flow.Finished? && !resumable && !facts.terminal
      ensures flow.ProcessGone? ==> EndsProcess(plan)
      ensures flow.Finished? ==>
                && (facts.terminal <==> CommittedArchived(status)) && status == Learned(plan, source)
                && resumable == ResumableCutover(old(memory), status, req) && memory.registry == old(memory).registry
                && (resumable && !facts.terminal ==> plan.probe.sourceState == Some(ReadOnly))
      ensures old(ReplayMismatch(memory.checkpoint, req)) && !plan.status.LedgerHalted? ==>
                flow.Threw? && memory == old(memory) && disk == old(disk)
      ensures old(Consistent(req)) && Honest(plan, req, source, destination) ==>
                && Consistent(req) && (Resumable(req) <==> old(Resumable(req)))
                && (flow.Finished? ==> StartedWell(req, resumable))
                && (Smooth(plan) && old(Promising(req, plan)) ==> flow.Finished?)
    {
      RecordingStartsFresh(plan, memory, source, req);
      resumable := false;
      flow, status := Open(req, plan);
      if flow.Finished? {
        flow, resumable := Decide(req, plan, status);
      }
    }

    /** The guarded part of a call and, when it fails, the failure handler. */
    method Attempt(req: Request, plan: Plan, status: Option<SourceStatus>, resumable: bool) returns (outcome: Outcome)
      requires InCall() && BeforeImport(facts) && !registryCutover && !targetRestored && !sourceCompleted
      requires facts.exported.NotBegun?
      requires facts.terminal <==> CommittedArchived(status)
      requires resumable && !facts.terminal ==> plan.probe.sourceState == Some(ReadOnly)
      requires Bare()
      modifies this
      ensures Bare() && Traced() && !outcome.NotStarted?
      ensures facts.terminal == old(facts).terminal
      ensures Moved(plan, req, plan.keys.Granted? && !resumable && !facts.terminal,
                    old(source), old(destination), receipt, source, destination, facts)
      ensures Proceeded(plan, req, RouteTaken(plan, resumable, facts.terminal), Cutover(old(memory).registry, req).Some?,
                        old(source), old(destination), receipt, facts)
      ensures facts.ImportOpen() ==> Noted()
      ensures old(NoNote()) && !resumable && !facts.terminal && facts.imported.NotSent? && !StopsRestoring(plan, old(source)) ==> NoNote()
      ensures TransferState.MovesRegistry(old(memory), old(disk), memory, disk, req, facts.cutover)
      ensures outcome.Interrupted? ==> EndsProcess(plan)
      ensures outcome.Done? ==> (facts.closing.CompleteKnown? || facts.terminal) && !facts.rolledBack
      ensures outcome.FailedTransfer? ==>
                && memory.checkpoint.Some? && Truthful(memory.checkpoint.value, facts)
                && (facts.rolledBack <==>
                      plan.keys.Granted? && !resumable && !facts.terminal && !facts.cutover && !facts.ImportOpen())
      ensures old(StartedWell(req, resumable)) && HonestAnswers(plan, req) ==>
                && Consistent(req)
                && (Resumable(req) <==> old(Resumable(req)) || facts.cutover)
                && (outcome.Done? ==> Concluded(req))
                && (Smooth(plan) && old(Resumable(req) || TransferState.Startable(source, destination, req, OfferedHash(plan))) ==> outcome.Done?)
    {
      var flow := GuardedPart(req, plan, status, resumable);
      match flow {
        case Finished =>
          outcome := Done;
        case ProcessGone =>
          outcome := Interrupted;
        case Threw(code) =>
          ghost var before, known := source, facts;
          outcome := Fail(req, plan, plan.keys.Granted?, CommittedArchived(status), code);
          FailingMoves(plan, req, plan.keys.Granted? && !resumable && !facts.terminal, old(source), old(destination),
                       receipt, before, source, destination, known, facts);
      }
    }

    /** One whole call. */
    method Execute(req: Request, plan: Plan) returns (outcome: Outcome)
      requires Bare()
      modifies this
      ensures Bare() && Traced()
      // what happened on the Servers, and which event accounts for it
      ensures Moved(plan, req, old(GoesFresh(plan, memory, source, req)), old(source), old(destination),
                    receipt, source, destination, facts)
      ensures Proceeded(plan, req, old(RouteOf(plan, memory, source, req)), old(Cutover(memory.registry, req)).Some?,
                        old(source), old(destination), receipt, facts)
      ensures Accounted(old(source), old(destination), source, destination, trace)
      // how the call ends
      ensures if old(Begins(plan, memory, source, req)) then !outcome.NotStarted?
              else (outcome.NotStarted? || outcome.Interrupted?) && (trace == [] || trace == [StatusRead(old(Learned(plan, source)))])
      ensures outcome.Interrupted? ==> EndsProcess(plan)
      ensures outcome.Done? ==> (facts.closing.CompleteKnown? || facts.terminal) && !facts.rolledBack
      ensures outcome.FailedTransfer? ==>
                && memory.checkpoint.Some? && Truthful(memory.checkpoint.value, facts)
                && (facts.rolledBack <==> old(GoesFresh(plan, memory, source, req)) && !facts.cutover && !facts.ImportOpen())
      ensures outcome.FailedTransfer? ==>
                FailureAccounted(plan, req, old(GoesFresh(plan, memory, source, req)), old(source), old(destination),
                                 source, destination, facts, memory)
      ensures old(ReplayMismatch(memory.checkpoint, req)) && !plan.status.LedgerHalted? ==>
                outcome.NotStarted? && memory == old(memory) && disk == old(disk)
      // what happened to the two registries
      ensures TransferState.MovesRegistry(old(memory), old(disk), memory, disk, req, facts.cutover)
      ensures facts.cutover ==> TransferState.Switched(old(memory).registry, memory.registry, req)
      // what the checkpoints say of an import that may have left
      ensures facts.ImportOpen() ==> Noted()
      ensures !old(Begins(plan, memory, source, req)) ==> TransferState.NoNewRecovery(old(memory), old(disk), memory, disk)
      ensures old(RecordsStop(plan, memory, source, req)) ==> NoNote()
      ensures old(RecordsPreflight(plan, memory, source, req)) && facts.imported.NotSent? && !old(StopsRestoring(plan, source)) ==> NoNote()
      // with honest Servers
      ensures old(Consistent(req) && Honest(plan, req, source, destination)) ==>
                && Consistent(req)
                && (Resumable(req) <==> old(Resumable(req)) || facts.cutover)
                && (outcome.Done? ==> Concluded(req))
                && (Smooth(plan) && old(Promising(req, plan)) ==> outcome.Done?)
                && (old(Resumable(req)) ==> facts.imported.NotSent? && !facts.rolledBack)
    {
      var flow, status, resumable := Start(req, plan);
      match flow {
        case Finished =>
          outcome := Attempt(req, plan, status, resumable);
        case ProcessGone =>
          outcome := Interrupted;
        case Threw(code) =>
          outcome := NotStarted(code);
      }
      TransferState.CutoverSwitches(old(memory).registry, req);
      MovesAreAccounted(plan, req, old(GoesFresh(plan, memory, source, req)), old(source), old(destination),
                        receipt, source, destination, trace);
      if outcome.FailedTransfer? {
        FailureIsAccounted(plan, req, old(GoesFresh(plan, memory, source, req)), old(source), old(destination),
                           receipt, source, destination, facts, memory);
      }
    }

    /** The preflight as a call of its own, as the user interface refreshes it. */
    method Preflight(req: Request, plan: Plan) returns (flow: Flow)
      requires Bare()
      modifies this`memory, this`disk
      ensures Bare()
      ensures flow.Finished? <==> Begins(plan, old(memory), source, req)
      ensures TransferState.KeepsRegistry(old(memory), old(disk), memory, disk)
      ensures TransferState.NoNewRecovery(old(memory), old(disk), memory, disk)
      ensures RecordsStop(plan, old(memory), source, req) || RecordsPreflight(plan, old(memory), source, req) ==> NoNote()
      ensures old(ReplayMismatch(memory.checkpoint, req)) && !plan.status.LedgerHalted? && !plan.probeHalts ==>
                flow.Threw? && memory == old(memory) && disk == old(disk)
      ensures old(Consistent(req)) && Honest(plan, req, source, destination) ==>
                && Consistent(req) && (Resumable(req) <==> old(Resumable(req)))
                && (Smooth(plan) && old(Promising(req, plan)) ==> flow.Finished?)
    {
      var status: Option<SourceStatus>;
      flow, status := ReadStatus(req, plan);
      if flow.Finished? {
        flow := RunPreflight(req, plan, status);
      }
    }

    // ----- histories --------------------------------------------------------

    function Current(): Snap
      reads this`memory, this`disk, this`source, this`destination, this`trace, this`receipt
    {
      Snap(memory, disk, source, destination, trace, receipt)
    }

    /** One step of a history; a plan that is not honest at its moment is passed over. */
    method Take(req: Request, step: Step)
      requires Bare() && Consistent(req)
      modifies this
      ensures Bare() && Consistent(req)
      ensures StepRelates(req, old(Current()), step, Current())
    {
      match step
      case Executing(plan) =>
        if Honest(plan, req, source, destination) {
          var outcome := Execute(req, plan);
          FactsHaveEvents(trace);
        }
      case Preflighting(plan) =>
        if Honest(plan, req, source, destination) {
          var flow := Preflight(req, plan);
        }
      case Restarting =>
        Restart();
    }

    /**
      Any history of calls, preflights and restarts, each of which may fail or
      stop at any await; the moments before, between and after its steps.
     */
    method RunHistory(req: Request, steps: seq<Step>) returns (snaps: seq<Snap>)
      requires Bare() && Consistent(req)
      modifies this
      ensures Bare() && IsHistory(req, steps, snaps)
      ensures snaps[0] == old(Current()) && snaps[|steps|] == Current()
      ensures forall i, j | 0 <= i < j < |steps| && CutsOver(req, steps, snaps, i) :: AfterCutover(req, snaps[j], steps[j], snaps[j + 1])
    {
      snaps := [Current()];
      for n := 0 to |steps|
        invariant Bare() && Consistent(req)
        invariant |snaps| == n + 1 && snaps[0] == old(Current()) && snaps[n] == Current()
        invariant forall i | 0 <= i < n :: StepRelates(req, snaps[i], steps[i], snaps[i + 1])
      {
        Take(req, steps[n]);
        snaps := snaps + [Current()];
      }
      assert forall i | 0 <= i < |steps| :: StepRelates(req, snaps[i], steps[i], snaps[i + 1]) <==> RelatesAt(req, steps, snaps, i);
      forall i, j | 0 <= i < j < |steps| && CutsOver(req, steps, snaps, i)
        ensures AfterCutover(req, snaps[j], steps[j], snaps[j + 1])
      {
        CutoverIsForGood(req, steps, snaps, i, j);
      }
    }
  }

  /** From nothing but two listed connections, one call whose requests all succeed moves the Workspace. */
  method MoveWorkspace(req: Request, registry: Registry, plan: Plan) returns (desktop: Desktop)
    requires req.source != req.destination
    requires req.source.connectionId in registry.connections && req.destination.connectionId in registry.connections
    requires req.source in registry.targets && registry.targets[req.source].None?
    requires Smooth(plan) && Honest(plan, req, SourceServer(None, Active), Absent)
    ensures fresh(desktop) && desktop.Concluded(req)
    ensures TransferState.Switched(registry, desktop.memory.registry, req)
  {
    desktop := new Desktop(Local(registry, None), SourceServer(None, Active), Absent);
    TransferState.UntouchedIsRestartable(desktop.memory, desktop.disk, desktop.source, desktop.destination, req, OfferedHash(plan));
    var outcome := desktop.Execute(req, plan);
  }

  const HEALTHY := Probe(true, true, true, true, true, true, true, Some(Active), ManifestPresent, false, None, None)

  /** The import is applied, but neither attempt is answered. */
  function OpenImportPlan(hash: string, importedAt: string): Plan {
    Plan(LedgerRead, HEALTHY, false, Saved, Granted, Answered, ExportDone(hash), Answered, Saved, Saved,
         Lost(true), Lost(false), importedAt, ImportBody(false, None, None),
         Granted, Saved, Saved, Saved, Answered, Answered, Saved, Answered, Saved)
  }

  /** Asked again, the source answers everything but the begin request. */
  function FailedBeginPlan(hash: string, importedAt: string): Plan {
    OpenImportPlan(hash, importedAt).(
      probe := HEALTHY.(sourceState := Some(ReadOnly), destinationExists := true),
      begin := Failing(503, false))
  }

  lemma OpenImportPlanImports(req: Request, hash: string, importedAt: string)
    ensures var p, source := OpenImportPlan(hash, importedAt), SourceServer(None, Active);
            && Honest(p, req, source, Absent) && !EndsProcess(p)
            && SourceAfterBegin(p, source) == SourceServer(Some(Row(Exported, Some(hash), None, None)), ReadOnly)
            && ReachesImport(p, source)
            && LeavesOpen(FirstReply(p, req, Absent, hash)) && LastReply(p, req, Absent, hash).Unanswered?
            && AfterImports(p, req, Absent, hash).Restored?
  {
  }

  /** A first call whose import was applied but never answered. */
  method LeaveImportOpen(req: Request, registry: Registry, hash: string, importedAt: string) returns (desktop: Desktop)
    requires req.source != req.destination
    requires req.source.connectionId in registry.connections && req.destination.connectionId in registry.connections
    requires req.source in registry.targets && registry.targets[req.source].None?
    ensures fresh(desktop) && desktop.Bare() && desktop.Consistent(req) && !desktop.Resumable(req)
    ensures TransferState.Restartable(desktop.memory, desktop.source, desktop.destination, req, hash)
    ensures TransferState.RowIn(desktop.source, {Exported}) && desktop.destination.Restored?
  {
    var plan := OpenImportPlan(hash, importedAt);
    desktop := new Desktop(Local(registry, None), SourceServer(None, Active), Absent);
    TransferState.UntouchedIsRestartable(desktop.memory, desktop.disk, desktop.source, desktop.destination, req, hash);
    TransferState.RestartablePasses(desktop.memory, desktop.disk, desktop.source, desktop.destination, req, hash, plan.probe);
    OpenImportPlanImports(req, hash, importedAt);
    assert GoesFresh(plan, desktop.memory, desktop.source, req);
    var outcome := desktop.Execute(req, plan);
  }

  /**
    The rollback rule holds for one call, not across calls: the first call above
    keeps the source, and a second one whose begin request fails rolls it back
    all the same. The Workspace is then active on one Server and restored on the
    other, and no checkpoint says so.
   */
  method RollbackAfterOpenImport(req: Request, registry: Registry, hash: string, importedAt: string) returns (desktop: Desktop)
    requires req.source != req.destination
    requires req.source.connectionId in registry.connections && req.destination.connectionId in registry.connections
    requires req.source in registry.targets && registry.targets[req.source].None?
    ensures fresh(desktop) && Sent(RollbackRequest) in desktop.trace
    ensures desktop.source.workspace == Active && TransferState.RowIn(desktop.source, {RolledBack})
    ensures desktop.destination.Restored?
    ensures desktop.memory.checkpoint.Some? && desktop.memory.checkpoint.value.targetCleanupRequired != Some(true)
  {
    desktop := LeaveImportOpen(req, registry, hash, importedAt);
    var plan := FailedBeginPlan(hash, importedAt);
    TransferState.RestartablePasses(desktop.memory, desktop.disk, desktop.source, desktop.destination, req, hash, plan.probe);
    var outcome := desktop.Execute(req, plan);
    FactsHaveEvents(desktop.trace);
  }

  /**
    And no failure is needed: after the first call above, one preflight that finds
    everything in order is enough. The Workspace that is there then blocks its
    own transfer, in every history from here on.
   */
  method BlockedByPreflight(req: Request, registry: Registry, hash: string, importedAt: string) returns (desktop: Desktop)
    requires req.source != req.destination
    requires req.source.connectionId in registry.connections && req.destination.connectionId in registry.connections
    requires req.source in registry.targets && registry.targets[req.source].None?
    ensures fresh(desktop) && Stuck(desktop.Current(), req)
    ensures TransferState.RowIn(desktop.source, {Exported}) && desktop.destination.Restored?
  {
    desktop := LeaveImportOpen(req, registry, hash, importedAt);
    var plan := FailedBeginPlan(hash, importedAt);
    TransferState.RestartablePasses(desktop.memory, desktop.disk, desktop.source, desktop.destination, req, hash, plan.probe);
    var flow := desktop.Preflight(req, plan);
  }
}
