/**
  The two Servers of a transfer as the Desktop meets them. The source ledger
  follows the SQL functions of the transfer tables; every mutating request is
  idempotent by operation id, so a request that is sent again after it was
  applied is answered like the first one.
 */
module TransferServers {
  import opened Wrappers
  import opened TransferTypes

  datatype Row = Row(
    state: LedgerState,
    bundleHash: Option<string>,
    targetWorkspaceId: Option<string>,
    receipt: Option<Receipt>)

  datatype SourceServer = SourceServer(row: Option<Row>, workspace: WorkspaceState)

  /** `Occupied`: the Workspace id exists there for a reason other than this transfer. */
  datatype TargetServer = Absent | Restored(receipt: Receipt) | Occupied

  /** How the export behind a begin request ends. */
  datatype ExportEnd = ExportDone(hash: string) | ExportFailed | ExportCutShort

  /** The state a request leaves behind and whether the Server answered 2xx. */
  datatype Served<S> = Served(state: S, accepted: bool)

  function ExportFrom(end: ExportEnd): Served<SourceServer> {
    match end
    case ExportDone(hash) => Served(SourceServer(Some(Row(Exported, Some(hash), None, None)), ReadOnly), true)
    case ExportFailed => Served(SourceServer(Some(Row(Failed, None, None, None)), Active), false)
    case ExportCutShort => Served(SourceServer(Some(Row(Preparing, None, None, None)), ReadOnly), false)
  }

  function Begin(s: SourceServer, end: ExportEnd): Served<SourceServer> {
    if s.row.None? || s.row.value.state in {Failed, RolledBack} then
      if s.workspace == Active then ExportFrom(end) else Served(s, false)
    else match s.row.value.state
      case Preparing => ExportFrom(end)
      case Exported => Served(s, true)
      case _ => Served(s, false)
  }

  predicate ReceiptFits(receipt: Receipt, req: Request, hash: string) {
    && receipt.transferId == req.transferId
    && receipt.sourceWorkspaceId == req.source.workspaceId
    && receipt.targetWorkspaceId == req.destination.workspaceId
    && receipt.sourceHash == hash
    && receipt.targetHash == hash
  }

  function RecordReceipt(s: SourceServer, req: Request, receipt: Receipt): Served<SourceServer> {
    if s.row.None? || s.row.value.bundleHash.None? then Served(s, false)
    else
      var row := s.row.value;
      if row.state in {Imported, Committed} then
        Served(s, row.targetWorkspaceId == Some(req.destination.workspaceId) && row.receipt == Some(receipt))
      else if row.state != Exported || !ReceiptFits(receipt, req, row.bundleHash.value) then Served(s, false)
      else
        Served(s.(row := Some(row.(state := Imported,
                                   targetWorkspaceId := Some(req.destination.workspaceId),
                                   receipt := Some(receipt)))), true)
  }

  function Complete(s: SourceServer): Served<SourceServer> {
    if s.row.None? then Served(s, false)
    else
      var row := s.row.value;
      if row.state == Committed then Served(s, true)
      else if row.state == Imported && row.receipt.Some? && row.targetWorkspaceId.Some? && s.workspace == ReadOnly then
        Served(SourceServer(Some(row.(state := Committed)), Archived), true)
      else Served(s, false)
  }

  function Rollback(s: SourceServer): Served<SourceServer> {
    if s.row.None? then Served(s, false)
    else
      var row := s.row.value;
      if row.state == RolledBack then Served(s, true)
      else if row.state in {Preparing, Exported, Failed} then
        Served(SourceServer(Some(row.(state := RolledBack)),
                            if s.workspace == ReadOnly then Active else s.workspace), true)
      else Served(s, false)
  }

  /** The hash of the bundle the source would hand out now. */
  function ExportedHash(s: SourceServer): Option<string> {
    if s.row.Some? && s.row.value.state == Exported then s.row.value.bundleHash else None
  }

  function StatusOf(s: SourceServer): Option<SourceStatus> {
    if s.row.None? then None
    else
      var row := s.row.value;
      Some(SourceStatus(
        row.state,
        row.bundleHash,
        if row.receipt.Some? then Some(row.receipt.value.targetHash) else None,
        row.targetWorkspaceId,
        row.receipt.Some?,
        s.workspace,
        s.workspace in {Archived, Deleted}))
  }

  /** An import of bundle `hash`; a repeated import replays the first receipt. */
  function Import(t: TargetServer, req: Request, hash: string, importedAt: string): Served<TargetServer> {
    match t
    case Absent =>
      Served(Restored(Receipt(req.transferId, req.source.workspaceId, hash,
                              req.destination.workspaceId, importedAt, hash)), true)
    case Restored(receipt) => Served(t, ReceiptFits(receipt, req, hash))
    case Occupied => Served(t, false)
  }

  /** What holds of the source Server between any two requests of this transfer. */
  ghost predicate SourceValid(s: SourceServer, req: Request) {
    s.row.Some? ==>
      var row := s.row.value;
      && (row.state in {Preparing, Exported, Imported} ==> s.workspace == ReadOnly)
      && (row.state in {RolledBack, Failed} ==> s.workspace == Active)
      && (row.state == Committed ==> s.workspace == Archived)
      && (row.state in {Exported, Imported, Committed} ==> row.bundleHash.Some?)
      && (row.state == Preparing ==> row.bundleHash.None?)
      && (row.state in {Imported, Committed} ==>
            && row.targetWorkspaceId == Some(req.destination.workspaceId)
            && row.receipt.Some?
            && ReceiptFits(row.receipt.value, req, row.bundleHash.value))
      && (row.state !in {Imported, Committed} ==> row.receipt.None?)
  }

  /** Every request keeps the ledger well formed, and a committed row is final. */
  lemma RequestsKeepSource(s: SourceServer, req: Request, end: ExportEnd, receipt: Receipt)
    requires SourceValid(s, req)
    requires s.row.None? ==> s.workspace == Active
    ensures SourceValid(Begin(s, end).state, req)
    ensures SourceValid(RecordReceipt(s, req, receipt).state, req)
    ensures SourceValid(Complete(s).state, req)
    ensures SourceValid(Rollback(s).state, req)
    ensures s.row.Some? && s.row.value.state == Committed ==>
              Begin(s, end).state == RecordReceipt(s, req, receipt).state == Complete(s).state == Rollback(s).state == s
  {}

  /** A request that is refused leaves the Server as it was, but for a begin whose export ends badly. */
  lemma RefusalsChangeNothing(s: SourceServer, t: TargetServer, req: Request, end: ExportEnd, receipt: Receipt,
                              hash: string, importedAt: string)
    ensures !Begin(s, end).accepted && end.ExportDone? ==> Begin(s, end).state == s
    ensures !RecordReceipt(s, req, receipt).accepted ==> RecordReceipt(s, req, receipt).state == s
    ensures !Complete(s).accepted ==> Complete(s).state == s
    ensures !Rollback(s).accepted ==> Rollback(s).state == s
    ensures !Import(t, req, hash, importedAt).accepted ==> Import(t, req, hash, importedAt).state == t
  {}

  /** Which requests a well-formed ledger accepts, and the row and the Workspace state they leave. */
  lemma LedgerAcceptsExactly(s: SourceServer, req: Request, end: ExportEnd, receipt: Receipt)
    requires SourceValid(s, req)
    ensures Begin(s, end).accepted <==>
              || (end.ExportDone? && s.row.Some? && s.row.value.state == Preparing)
              || (end.ExportDone? && s.workspace == Active && (s.row.None? || s.row.value.state in {Failed, RolledBack}))
              || (s.row.Some? && s.row.value.state == Exported)
    ensures RecordReceipt(s, req, receipt).accepted <==>
              && s.row.Some?
              && (|| (s.row.value.state == Exported && ReceiptFits(receipt, req, s.row.value.bundleHash.value))
                  || (s.row.value.state in {Imported, Committed} && s.row.value.receipt == Some(receipt)))
    ensures Complete(s).accepted <==> s.row.Some? && s.row.value.state in {Imported, Committed}
    ensures Rollback(s).accepted <==> s.row.Some? && s.row.value.state !in {Imported, Committed}
    ensures Begin(s, end).accepted ==>
              Begin(s, end).state.row.value.state == Exported && Begin(s, end).state.workspace == ReadOnly
    ensures RecordReceipt(s, req, receipt).accepted ==>
              var row := RecordReceipt(s, req, receipt).state.row.value;
              && row.state in {Imported, Committed} && row.receipt == Some(receipt)
              && row.targetWorkspaceId == Some(req.destination.workspaceId)
    ensures Complete(s).accepted ==>
              Complete(s).state.row.value.state == Committed && Complete(s).state.workspace == Archived
    ensures Rollback(s).accepted ==>
              Rollback(s).state.row.value.state == RolledBack && Rollback(s).state.workspace == Active
  {}

  /** Sending an accepted request a second time changes nothing and is accepted again. */
  lemma RequestsAreIdempotent(s: SourceServer, t: TargetServer, req: Request, end: ExportEnd, again: ExportEnd,
                              receipt: Receipt, hash: string, importedAt: string, later: string)
    ensures Begin(s, end).accepted ==> Begin(Begin(s, end).state, again) == Begin(s, end)
    ensures RecordReceipt(s, req, receipt).accepted ==>
              RecordReceipt(RecordReceipt(s, req, receipt).state, req, receipt) == RecordReceipt(s, req, receipt)
    ensures Complete(s).accepted ==> Complete(Complete(s).state) == Complete(s)
    ensures Rollback(s).accepted ==> Rollback(Rollback(s).state) == Rollback(s)
    ensures Import(t, req, hash, importedAt).accepted ==>
              Import(Import(t, req, hash, importedAt).state, req, hash, later) == Import(t, req, hash, importedAt)
  {}
}
