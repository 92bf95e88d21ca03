/** The invariants of a transfer over what is stored: two local copies, two Servers. */
module TransferState {
  import opened Wrappers
  import opened TransferTypes
  import opened TransferServers
  import opened TransferDecisions

  predicate RowIn(source: SourceServer, states: set<LedgerState>) {
    source.row.Some? && source.row.value.state in states
  }

  function ReceiptOf(l: Local): Option<Receipt> {
    if l.checkpoint.Some? then l.checkpoint.value.receipt else None
  }

  /** The registry lists both sides, and the checkpoint speaks of this transfer. */
  ghost predicate LocalValid(l: Local, req: Request) {
    && req.source != req.destination
    && req.source.connectionId in l.registry.connections
    && req.destination.connectionId in l.registry.connections
    && req.source in l.registry.targets
    && PreflightBare(l)
    && !ReplayMismatch(l.checkpoint, req)
  }

  /** A row with a receipt belongs to the Workspace the destination really holds. */
  ghost predicate ServersAgree(source: SourceServer, destination: TargetServer, req: Request) {
    && SourceValid(source, req)
    && (RowIn(source, {Imported, Committed}) ==>
          destination.Restored? && source.row.value.receipt == Some(destination.receipt))
  }

  /** A kept receipt was issued by the destination, for the bundle the source still records. */
  ghost predicate Genuine(receipt: Option<Receipt>, source: SourceServer, destination: TargetServer, req: Request) {
    receipt.Some? ==>
      && ReceiptFits(receipt.value, req, receipt.value.sourceHash)
      && destination == Restored(receipt.value)
      && source.row.Some? && source.row.value.bundleHash == Some(receipt.value.sourceHash)
  }

  /** Receipt and registry marker are kept, and the ledger can still accept that receipt. */
  ghost predicate Marked(l: Local, source: SourceServer, destination: TargetServer, req: Request) {
    && SupersededBy(l.registry, req.source) == Some(req.destination)
    && ReceiptOf(l).Some? && !l.checkpoint.value.sourceArchived
    && Genuine(ReceiptOf(l), source, destination, req)
    && RowIn(source, {Exported, Imported})
  }

  /**
    After the durable cutover: a restart or a later call can still finish, either
    from the marker and the receipt or because the source has already committed.
   */
  ghost predicate Resumable(memory: Local, disk: Local, source: SourceServer, destination: TargetServer, req: Request) {
    || RowIn(source, {Committed})
    || (Marked(memory, source, destination, req) && Marked(disk, source, destination, req))
  }

  /** No trace of a cutover on this side. */
  ghost predicate Uncut(l: Local, req: Request) {
    && SupersededBy(l.registry, req.source).None?
    && (l.checkpoint.Some? ==> l.checkpoint.value.phase !in {CutoverPhase, ArchivedPhase})
  }

  /** The call may still begin an export: nothing was rolled back, failed or handed over. */
  predicate FreshStart(source: SourceServer) {
    source.row.None? || RowIn(source, {Preparing, Exported})
  }

  ghost predicate BeforeCutover(memory: Local, disk: Local, source: SourceServer, req: Request) {
    && Uncut(memory, req) && Uncut(disk, req)
    && !RowIn(source, {Imported, Committed})
  }

  /** Local side of one copy: valid, not superseded by anything else, and with a genuine receipt. */
  ghost predicate Kept(l: Local, source: SourceServer, destination: TargetServer, req: Request) {
    && LocalValid(l, req)
    && SupersededBy(l.registry, req.source) in {None, Some(req.destination)}
    && Genuine(ReceiptOf(l), source, destination, req)
  }

  ghost predicate Consistent(memory: Local, disk: Local,
                             source: SourceServer, destination: TargetServer, req: Request) {
    && Kept(memory, source, destination, req) && Kept(disk, source, destination, req)
    && ServersAgree(source, destination, req)
    && (BeforeCutover(memory, disk, source, req) || Resumable(memory, disk, source, destination, req))
  }

  /** A running call before its cutover, with the receipt it holds. */
  ghost predicate Pending(memory: Local, disk: Local, receipt: Option<Receipt>,
                          source: SourceServer, destination: TargetServer, req: Request) {
    && Kept(memory, source, destination, req) && Kept(disk, source, destination, req)
    && ServersAgree(source, destination, req) && Genuine(receipt, source, destination, req)
    && BeforeCutover(memory, disk, source, req)
  }

  /** A running call after the cutover: whatever happens now, the transfer can be finished. */
  ghost predicate Secured(memory: Local, disk: Local, receipt: Option<Receipt>,
                          source: SourceServer, destination: TargetServer, req: Request) {
    && Kept(memory, source, destination, req) && Kept(disk, source, destination, req)
    && ServersAgree(source, destination, req) && Genuine(receipt, source, destination, req)
    && Resumable(memory, disk, source, destination, req)
    && (receipt.Some? || RowIn(source, {Committed}))
  }

  /** The transfer is over: the source is committed, the registry switched, and both local copies say so. */
  predicate Over(memory: Local, disk: Local, source: SourceServer, req: Request) {
    && RowIn(source, {Committed}) && memory == disk
    && SupersededBy(memory.registry, req.source) == Some(req.destination)
    && memory.checkpoint.Some? && memory.checkpoint.value.phase == ArchivedPhase
    && memory.checkpoint.value.sourceArchived
  }

  /** The destination has room for bundle `hash`, or has already restored it. */
  predicate Takes(destination: TargetServer, req: Request, hash: string) {
    destination.Absent? || (destination.Restored? && ReceiptFits(destination.receipt, req, hash))
  }

  /** Both Servers let the transfer start, or start again after an interrupted export or import; a new bundle has hash `hash`. */
  predicate Startable(source: SourceServer, destination: TargetServer, req: Request, hash: string) {
    if source.row.None? then source.workspace == Active && destination.Absent?
    else
      var row := source.row.value;
      || (row.state == Preparing && Takes(destination, req, hash))
      || (row.state == Exported && row.bundleHash.Some? && Takes(destination, req, row.bundleHash.value))
  }

  /** The checkpoint says that an import may have left: only then may the Workspace be there already. */
  predicate Recovering(l: Local) {
    l.checkpoint.Some? && l.checkpoint.value.phase == RestoringPhase && !l.checkpoint.value.sourceArchived
  }

  /** Startable, and the Desktop's checkpoint accounts for what is already there. */
  predicate Restartable(l: Local, source: SourceServer, destination: TargetServer, req: Request, hash: string) {
    && Startable(source, destination, req, hash)
    && (!destination.Absent? ==> Recovering(l))
    && (source.row.None? && l.checkpoint.Some? ==> l.checkpoint.value.phase == PreflightPhase)
  }

  /** Neither copy starts to say that an import may have left. */
  predicate NoNewRecovery(memory0: Local, disk0: Local, memory: Local, disk: Local) {
    Recovering(memory) || Recovering(disk) ==> Recovering(memory0) || Recovering(disk0)
  }

  /** What the destination holds was restored from the bundle that the source still records. */
  predicate Fitted(source: SourceServer, destination: TargetServer, req: Request) {
    destination.Absent?
    || (&& destination.Restored? && RowIn(source, {Exported, RolledBack, Imported, Committed})
        && source.row.value.bundleHash.Some? && ReceiptFits(destination.receipt, req, source.row.value.bundleHash.value))
  }

  /** Nothing of this transfer has happened yet. */
  ghost predicate Untouched(memory: Local, disk: Local, source: SourceServer, destination: TargetServer, req: Request) {
    && source == SourceServer(None, Active) && destination == Absent
    && memory == disk && memory.checkpoint.None? && LocalValid(memory, req)
    && SupersededBy(memory.registry, req.source).None?
  }

  // ----- verdicts ----------------------------------------------------------

  /** A resumable transfer's receipt survives the repair unchanged. */
  lemma ResumeKeepsReceipt(l: Local, source: SourceServer, destination: TargetServer, req: Request)
    requires Kept(l, source, destination, req) && ServersAgree(source, destination, req)
    ensures ResumeReceipt(l.checkpoint, StatusOf(source), req) == ReceiptOf(l)
  {
  }

  /** With truthful Servers the choice between resuming and exporting again is the right one. */
  lemma ResumableMeansMarked(memory: Local, disk: Local, source: SourceServer, destination: TargetServer, req: Request)
    requires Consistent(memory, disk, source, destination, req)
    ensures CommittedArchived(StatusOf(source)) <==> RowIn(source, {Committed})
    ensures !RowIn(source, {Committed}) ==>
              (ResumableCutover(memory, StatusOf(source), req) <==> Resumable(memory, disk, source, destination, req))
  {
  }

  /** With truthful Servers in good order, the preflight lets a resumable transfer through untouched. */
  lemma ResumablePassesPreflight(memory: Local, disk: Local,
                                 source: SourceServer, destination: TargetServer, req: Request, probe: Probe)
    requires Consistent(memory, disk, source, destination, req) && Resumable(memory, disk, source, destination, req)
    requires probe.keysOk && probe.sourceReplied && probe.destinationReplied
    requires probe.sourceHealthy && probe.destinationHealthy && probe.sameWorkspaceId && probe.owner
    requires probe.sourceSchema == probe.destinationSchema
    requires probe.sourceState == Some(source.workspace) && (probe.destinationExists <==> !destination.Absent?)
    ensures PreflightVerdict(memory, StatusOf(source), req, probe) == Proceeds(false)
  {
  }

  predicate KeepsReceipt(verdict: Verdict, committed: bool) {
    match verdict
    case Throws(_) => true
    case Stops(_, archived, _) => archived != Some(true) || committed
    case Proceeds(recordPreflight) => !recordPreflight
  }

  /** No verdict on a resumable transfer marks it archived early or forgets its receipt. */
  lemma VerdictKeepsResumable(memory: Local, disk: Local,
                              source: SourceServer, destination: TargetServer, req: Request, probe: Probe)
    requires Consistent(memory, disk, source, destination, req) && Resumable(memory, disk, source, destination, req)
    requires probe.sourceState == Some(source.workspace)
    ensures KeepsReceipt(PreflightVerdict(memory, StatusOf(source), req, probe), RowIn(source, {Committed}))
  {
  }

  /** What lets a call past the preflight without a cutover lets it begin. */
  lemma PassingIsFreshStart(memory: Local, disk: Local,
                            source: SourceServer, destination: TargetServer, req: Request, probe: Probe)
    requires Consistent(memory, disk, source, destination, req) && !Resumable(memory, disk, source, destination, req)
    requires PreflightVerdict(memory, StatusOf(source), req, probe).Proceeds?
    ensures FreshStart(source)
  {
  }

  /** In good order the preflight lets everything through that can start or start again. */
  lemma RestartablePasses(memory: Local, disk: Local, source: SourceServer, destination: TargetServer, req: Request,
                          hash: string, probe: Probe)
    requires Consistent(memory, disk, source, destination, req) && Restartable(memory, source, destination, req, hash)
    requires !Resumable(memory, disk, source, destination, req)
    requires probe.keysOk && probe.sourceReplied && probe.destinationReplied && probe.manifest == ManifestPresent
    requires probe.sourceHealthy && probe.destinationHealthy && probe.sameWorkspaceId && probe.owner
    requires probe.sourceSchema == probe.destinationSchema
    requires probe.sourceState == Some(source.workspace) && (probe.destinationExists <==> !destination.Absent?)
    ensures PreflightVerdict(memory, StatusOf(source), req, probe) == Proceeds(true)
  {
  }

  /** What passes without a cutover is recorded, and accounts for what is already there. */
  lemma PassingAccounts(memory: Local, disk: Local, source: SourceServer, destination: TargetServer, req: Request, probe: Probe)
    requires Consistent(memory, disk, source, destination, req) && !Resumable(memory, disk, source, destination, req)
    requires probe.destinationExists <==> !destination.Absent?
    requires PreflightVerdict(memory, StatusOf(source), req, probe).Proceeds?
    ensures PreflightVerdict(memory, StatusOf(source), req, probe).recordPreflight
    ensures !destination.Absent? ==> Recovering(memory)
    ensures source.row.None? && memory.checkpoint.Some? ==> memory.checkpoint.value.phase == PreflightPhase
  {
    ResumableMeansMarked(memory, disk, source, destination, req);
  }

  lemma UntouchedIsRestartable(memory: Local, disk: Local, source: SourceServer, destination: TargetServer, req: Request, hash: string)
    requires Untouched(memory, disk, source, destination, req)
    ensures Consistent(memory, disk, source, destination, req) && Restartable(memory, source, destination, req, hash)
    ensures !Resumable(memory, disk, source, destination, req)
  {
  }

  // ----- writes --------------------------------------------------------------

  function ProgressCheckpoint(req: Request, phase: Phase, hash: Option<string>, receipt: Option<Receipt>): Checkpoint {
    Checkpoint(req.source, req.destination, phase, phase == ArchivedPhase,
               if phase == RestoringPhase then Some(false) else None, None, hash, receipt, None)
  }

  /** A checkpoint of this transfer with a genuine receipt. */
  ghost predicate Proper(c: Checkpoint, source: SourceServer, destination: TargetServer, req: Request) {
    && c.source == req.source && c.destination == req.destination
    && (c.phase == PreflightPhase ==> c.receipt.None?)
    && Genuine(c.receipt, source, destination, req)
  }

  /** Recording a proper checkpoint keeps the copy in order, on either side of the cutover. */
  lemma WriteKeeps(l: Local, source: SourceServer, destination: TargetServer, req: Request, c: Checkpoint)
    requires Kept(l, source, destination, req) && Proper(c, source, destination, req)
    ensures Kept(l.(checkpoint := Some(c)), source, destination, req)
    ensures Uncut(l, req) && c.phase !in {CutoverPhase, ArchivedPhase} ==> Uncut(l.(checkpoint := Some(c)), req)
    ensures SupersededBy(l.registry, req.source) == Some(req.destination)
            && c.receipt.Some? && !c.sourceArchived && RowIn(source, {Exported, Imported})
            ==> Marked(l.(checkpoint := Some(c)), source, destination, req)
  {
  }

  /** The cutover never fails on a valid registry and marks the source as superseded. */
  lemma CutoverMarks(l: Local, source: SourceServer, destination: TargetServer, req: Request)
    requires Kept(l, source, destination, req)
    ensures Cutover(l.registry, req).Some?
    ensures var cut := l.(registry := Cutover(l.registry, req).value);
            && SupersededBy(cut.registry, req.source) == Some(req.destination)
            && Kept(cut, source, destination, req)
            && (ReceiptOf(l).Some? && !l.checkpoint.value.sourceArchived && RowIn(source, {Exported, Imported})
                ==> Marked(cut, source, destination, req))
  {
  }

  // ----- the registry ----------------------------------------------------------

  /**
    What a cutover makes of a registry: the source is superseded by the
    destination, which is listed and superseded by nothing; every other target
    stays as it is; and the destination is selected if the source was.
   */
  predicate Switched(before: Registry, after: Registry, req: Request) {
    && after.connections == before.connections
    && req.source in before.targets
    && after.targets.Keys == before.targets.Keys + {req.destination}
    && (forall t | t in before.targets && t != req.source && t != req.destination :: after.targets[t] == before.targets[t])
    && after.targets[req.source] == Some(req.destination) && after.targets[req.destination] == None
    && after.active == if before.active == Some(req.source) then Some(req.destination) else before.active
  }

  /** The cutover does that, and fails exactly where a side is not listed or both are one. */
  lemma CutoverSwitches(registry: Registry, req: Request)
    ensures Cutover(registry, req).Some? <==>
              && req.source != req.destination && req.source in registry.targets
              && req.source.connectionId in registry.connections && req.destination.connectionId in registry.connections
    ensures Cutover(registry, req).Some? ==> Switched(registry, Cutover(registry, req).value, req)
  {
  }

  /** There is one way to switch, and doing it again changes nothing. */
  lemma SwitchingIsStable(before: Registry, once: Registry, twice: Registry, req: Request)
    requires req.source != req.destination && Switched(before, once, req)
    ensures Switched(before, twice, req) <==> twice == once
    ensures Switched(once, twice, req) <==> twice == once
  {
    if Switched(before, twice, req) || Switched(once, twice, req) {
      assert forall t | t in once.targets :: t in twice.targets && twice.targets[t] == once.targets[t];
      assert twice.targets == once.targets;
    }
  }

  /** Each copy still has one of the two registries that were there. */
  predicate KeepsRegistry(memory0: Local, disk0: Local, memory: Local, disk: Local) {
    && memory.registry in {memory0.registry, disk0.registry}
    && disk.registry in {memory0.registry, disk0.registry}
  }

  /** After a cutover both copies have the registry of memory, cut over; otherwise none is changed. */
  predicate MovesRegistry(memory0: Local, disk0: Local, memory: Local, disk: Local, req: Request, cutover: bool) {
    if cutover then Some(memory.registry) == Some(disk.registry) == Cutover(memory0.registry, req)
    else KeepsRegistry(memory0, disk0, memory, disk)
  }

  // ----- requests ------------------------------------------------------------

  /** Beginning an export keeps every genuine receipt, and leaves no row that has one. */
  lemma BeginKeeps(memory: Local, disk: Local, receipt: Option<Receipt>,
                   source: SourceServer, destination: TargetServer, req: Request, end: ExportEnd)
    requires Pending(memory, disk, receipt, source, destination, req) && FreshStart(source)
    ensures Pending(memory, disk, receipt, Begin(source, end).state, destination, req)
  {
  }

  /** The source takes the receipt it is ready for, however often it is sent. */
  lemma ReceiptIsTaken(memory: Local, disk: Local, receipt: Option<Receipt>,
                       source: SourceServer, destination: TargetServer, req: Request)
    requires Secured(memory, disk, receipt, source, destination, req) && !RowIn(source, {Committed})
    ensures var served := RecordReceipt(source, req, receipt.value);
            && served.accepted && RowIn(served.state, {Imported})
            && Secured(memory, disk, receipt, served.state, destination, req)
  {
  }

  /** Once the receipt is taken, completing archives the source for good. */
  lemma CompleteIsTaken(memory: Local, disk: Local, receipt: Option<Receipt>,
                        source: SourceServer, destination: TargetServer, req: Request)
    requires Secured(memory, disk, receipt, source, destination, req) && RowIn(source, {Imported})
    ensures var served := Complete(source);
            && served.accepted && RowIn(served.state, {Committed}) && served.state.workspace == Archived
            && Secured(memory, disk, receipt, served.state, destination, req)
  {
  }

  /** A rollback never reaches a row that has a receipt. */
  lemma RollbackKeeps(memory: Local, disk: Local, receipt: Option<Receipt>,
                      source: SourceServer, destination: TargetServer, req: Request)
    ensures Pending(memory, disk, receipt, source, destination, req) ==>
              Pending(memory, disk, receipt, Rollback(source).state, destination, req)
    ensures RowIn(source, {Imported, Committed}) ==> Rollback(source).state == source
  {
  }

  /** An import adds a Workspace where there was none, and never replaces one. */
  lemma ImportKeeps(memory: Local, disk: Local, receipt: Option<Receipt>,
                    source: SourceServer, destination: TargetServer, req: Request,
                    hash: string, importedAt: string)
    requires Pending(memory, disk, receipt, source, destination, req)
    ensures Pending(memory, disk, receipt, source, Import(destination, req, hash, importedAt).state, req)
  {
  }
}
