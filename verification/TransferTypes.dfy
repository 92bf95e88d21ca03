/**
  The data of one cross-server Workspace transfer: what the source Server keeps
  in its ledger, what the Desktop keeps in its registry and its restart
  checkpoint, and the receipt that travels between the two Servers.
  All values belong to a single transfer id.
 */
module TransferTypes {
  import opened Wrappers

  /** A Workspace is always addressed by connection and Workspace id together. */
  datatype Target = Target(connectionId: string, workspaceId: string)

  datatype Request = Request(transferId: string, source: Target, destination: Target)

  datatype LedgerState = Preparing | Exported | Imported | Committed | RolledBack | Failed
  datatype WorkspaceState = Active | ReadOnly | Archived | Deleted

  datatype Receipt = Receipt(
    transferId: string,
    sourceWorkspaceId: string,
    sourceHash: string,
    targetWorkspaceId: string,
    importedAt: string,
    targetHash: string)

  /** The reply of the source Server's transfer status endpoint. */
  datatype SourceStatus = SourceStatus(
    state: LedgerState,
    sourceHash: Option<string>,
    targetHash: Option<string>,
    targetWorkspaceId: Option<string>,
    receiptPresent: bool,
    workspaceState: WorkspaceState,
    sourceArchived: bool)

  datatype Phase =
    | PreflightPhase | ExportedPhase | RestoringPhase | VerifiedPhase
    | CutoverPhase | ArchivedPhase | FailedPhase

  /** The restart-safe checkpoint; an absent flag of the original is `None`. */
  datatype Checkpoint = Checkpoint(
    source: Target,
    destination: Target,
    phase: Phase,
    sourceArchived: bool,
    targetRestored: Option<bool>,
    targetCleanupRequired: Option<bool>,
    integrityHash: Option<string>,
    receipt: Option<Receipt>,
    failureCode: Option<string>)

  /** `targets` maps every listed target to what superseded it, if anything. */
  datatype Registry = Registry(
    connections: set<string>,
    targets: map<Target, Option<Target>>,
    active: Option<Target>)

  /** What the Desktop knows: held in memory, and a second time on disk. */
  datatype Local = Local(registry: Registry, checkpoint: Option<Checkpoint>)

  function SupersededBy(registry: Registry, target: Target): Option<Target> {
    if target in registry.targets then registry.targets[target] else None
  }

  /** The registry side of the cutover; `None` where the original throws. */
  function Cutover(registry: Registry, req: Request): Option<Registry> {
    if req.source == req.destination
       || req.source.connectionId !in registry.connections
       || req.destination.connectionId !in registry.connections
       || req.source !in registry.targets
    then None
    else Some(Registry(
      registry.connections,
      registry.targets[req.source := Some(req.destination)][req.destination := None],
      if registry.active == Some(req.source) then Some(req.destination) else registry.active))
  }

  predicate CommittedArchived(status: Option<SourceStatus>) {
    status.Some? && status.value.state == Committed && status.value.sourceArchived
  }

  predicate ReplayMismatch(checkpoint: Option<Checkpoint>, req: Request) {
    checkpoint.Some?
    && (checkpoint.value.source != req.source || checkpoint.value.destination != req.destination)
  }

  /** Whether a later call resumes after the local cutover instead of exporting again. */
  predicate ResumableCutover(local: Local, status: Option<SourceStatus>, req: Request) {
    && local.checkpoint.Some?
    && var previous := local.checkpoint.value;
    && !previous.sourceArchived
    && (previous.phase == CutoverPhase
        || (SupersededBy(local.registry, req.source) == Some(req.destination) && previous.receipt.Some?)
        || (status.Some? && status.value.state == Imported && previous.receipt.Some?))
  }
}
