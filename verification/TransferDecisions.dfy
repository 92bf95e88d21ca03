/**
  The decisions of a transfer call that need no request of their own: the
  preflight verdict over everything the preflight has read, the checkpoint a
  safe stop leaves behind, the repair of a persisted receipt and the
  classification of a failed import.
 */
module TransferDecisions {
  import opened Wrappers
  import opened Decimals
  import opened TransferTypes

  // ----- failed imports --------------------------------------------------

  const IMPORT_FAILED := "workspace_transfer_import_failed"

  /** The message of a request that was answered with a status outside 2xx. */
  function StatusMessage(status: nat): string {
    IMPORT_FAILED + ":" + Decimal(status)
  }

  /** The message of a request that got no answer at all. */
  const UNAVAILABLE_MESSAGE := IMPORT_FAILED + "_unavailable"

  predicate OccursAt(s: string, part: string, i: nat) {
    i + |part| <= |s| && s[i..i + |part|] == part
  }

  /** A 5xx status follows the failure code at `i`, up to the end or the next colon. */
  predicate ServerErrorAt(s: string, i: nat) {
    && OccursAt(s, IMPORT_FAILED + ":5", i)
    && var j := i + |IMPORT_FAILED| + 2;
    && j + 2 <= |s| && IsDigit(s[j]) && IsDigit(s[j + 1])
    && (j + 2 == |s| || s[j + 2] == ':')
  }

  predicate ImportOutcomeUnknown(message: string) {
    || (exists i :: 0 <= i <= |message| && OccursAt(message, UNAVAILABLE_MESSAGE, i))
    || (exists i :: 0 <= i <= |message| && ServerErrorAt(message, i))
  }

  lemma {:induction false} DecimalOfThree(n: nat)
    ensures |Decimal(n)| == 3 <==> 100 <= n <= 999
    ensures |Decimal(n)| == 3 ==> (Decimal(n)[0] == '5' <==> 500 <= n <= 599)
  {
    if n >= 10 {
      assert Decimal(n) == Decimal(n / 10) + [('0' as int + n % 10) as char];
      if n >= 100 {
        assert Decimal(n / 10) == Decimal(n / 100) + [('0' as int + (n / 10) % 10) as char];
        if n >= 1000 {
          assert |Decimal(n / 100)| >= 2;
        }
      }
    }
  }

  lemma OnlyTheStartMatches(status: nat, i: nat)
    requires 0 < i <= |StatusMessage(status)|
    ensures !OccursAt(StatusMessage(status), UNAVAILABLE_MESSAGE, i)
    ensures !ServerErrorAt(StatusMessage(status), i)
  {
    var m := StatusMessage(status);
    if i < |m| {
      assert m[i] != 'w' by {
        if i < |IMPORT_FAILED| {
          assert m[i] == IMPORT_FAILED[i];
        } else if i == |IMPORT_FAILED| {
          assert m[i] == ':';
        } else {
          assert m[i] == Decimal(status)[i - |IMPORT_FAILED| - 1];
        }
      }
      assert UNAVAILABLE_MESSAGE[0] == 'w' && (IMPORT_FAILED + ":5")[0] == 'w';
    }
  }

  /**
    The message of an answered import is read as "outcome unknown" exactly for
    the statuses 500 to 599, and the message of an unanswered one always is.
   */
  lemma UnknownExactlyForServerErrors(status: nat)
    ensures ImportOutcomeUnknown(StatusMessage(status)) <==> 500 <= status <= 599
    ensures ImportOutcomeUnknown(UNAVAILABLE_MESSAGE)
  {
    assert OccursAt(UNAVAILABLE_MESSAGE, UNAVAILABLE_MESSAGE, 0);
    var m, p, digits := StatusMessage(status), |IMPORT_FAILED|, Decimal(status);
    forall i | 0 < i <= |m|
      ensures !OccursAt(m, UNAVAILABLE_MESSAGE, i) && !ServerErrorAt(m, i)
    {
      OnlyTheStartMatches(status, i);
    }
    assert m[p] == ':' && m[p + 1..] == digits;
    assert !OccursAt(m, UNAVAILABLE_MESSAGE, 0) by {
      assert UNAVAILABLE_MESSAGE[p] == '_';
    }
    DecimalOfThree(status);
    if ServerErrorAt(m, 0) {
      assert m[..p + 2][p + 1] == '5';
      assert m[p + 1] == digits[0] && m[p + 2] == digits[1] && m[p + 3] == digits[2];
      assert |digits| == 3;
    }
    if 500 <= status <= 599 {
      assert m[..p + 2] == IMPORT_FAILED + ":5";
      assert ServerErrorAt(m, 0);
    }
  }

  // ----- receipts --------------------------------------------------------

  predicate IsDigest(s: string) {
    |s| == 64 && forall i | 0 <= i < |s| :: '0' <= s[i] <= '9' || 'a' <= s[i] <= 'f'
  }

  /** Repair a persisted receipt with the hashes the source Server holds. */
  function ReconcileReceipt(
    receipt: Option<Receipt>,
    status: Option<SourceStatus>,
    localHash: Option<string>,
    sourceWorkspaceId: string,
    destinationWorkspaceId: string
  ): Option<Receipt>
  {
    if receipt.None?
       || receipt.value.sourceWorkspaceId != sourceWorkspaceId
       || receipt.value.targetWorkspaceId != destinationWorkspaceId
    then None
    else
      var r := receipt.value;
      var sourceHash :=
        if status.Some? && status.value.sourceHash.Some? then status.value.sourceHash.value
        else localHash.GetOr(r.sourceHash);
      var targetHash :=
        if status.Some? && status.value.targetHash.Some? then status.value.targetHash.value
        else sourceHash;
      if !IsDigest(sourceHash) || !IsDigest(targetHash) then None
      else if sourceHash == r.sourceHash && targetHash == r.targetHash then receipt
      else Some(r.(sourceHash := sourceHash, targetHash := targetHash))
  }

  function ResumeReceipt(previous: Option<Checkpoint>, status: Option<SourceStatus>, req: Request): Option<Receipt> {
    if previous.None? then None
    else
      var repaired := ReconcileReceipt(previous.value.receipt, status, previous.value.integrityHash,
                                       req.source.workspaceId, req.destination.workspaceId);
      if repaired.Some? then repaired else previous.value.receipt
  }

  // ----- preflight -------------------------------------------------------

  datatype ManifestReply = ManifestPresent | ManifestEmpty | ManifestFailed

  /** Everything the preflight reads besides the ledger status and local state. */
  datatype Probe = Probe(
    keysOk: bool,
    sourceReplied: bool,
    destinationReplied: bool,
    sourceHealthy: bool,
    destinationHealthy: bool,
    sameWorkspaceId: bool,
    owner: bool,
    sourceState: Option<WorkspaceState>,
    manifest: ManifestReply,
    destinationExists: bool,
    sourceSchema: Option<nat>,
    destinationSchema: Option<nat>)

  datatype Verdict =
    | Throws(code: string)
    | Stops(code: string, archived: Option<bool>, restored: Option<bool>)
    | Proceeds(recordPreflight: bool)

  /** The verdict replaces the checkpoint. */
  predicate IsRecorded(verdict: Verdict) { verdict.Stops? || (verdict.Proceeds? && verdict.recordPreflight) }

  function StopWith(code: string): Verdict { Stops(code, None, None) }

  /** Whether the source connection may be used although its target was superseded. */
  predicate SourceUsable(local: Local, req: Request) {
    && req.source.connectionId in local.registry.connections
    && req.source in local.registry.targets
    && var superseded := SupersededBy(local.registry, req.source);
    && (superseded.Some? ==>
          && local.checkpoint.Some?
          && local.checkpoint.value.source == req.source
          && local.checkpoint.value.destination == superseded.value
          && !local.checkpoint.value.sourceArchived)
  }

  /** The checks on the ledger and the local checkpoint, before any further request. */
  function LedgerVerdict(local: Local, status: Option<SourceStatus>, req: Request): Verdict {
    var previous := local.checkpoint;
    var superseded := SupersededBy(local.registry, req.source);
    if ReplayMismatch(previous, req) then Throws("workspace_transfer_id_replay_mismatch")
    else if !(CommittedArchived(status) || (status.Some? && status.value.state in {RolledBack, Failed}))
            && !SourceUsable(local, req) then Throws("workspace_transfer_source_superseded")
    else if req.destination.connectionId !in local.registry.connections then
      Throws("workspace_transfer_destination_connection_not_found")
    else if superseded.Some? && superseded.value != req.destination then
      StopWith("workspace_transfer_source_status_target_mismatch")
    else if status.Some? && status.value.state == RolledBack then
      Stops("workspace_transfer_source_rolled_back", Some(status.value.sourceArchived), None)
    else if status.Some? && status.value.state == Failed then
      Stops("workspace_transfer_source_failed", Some(status.value.sourceArchived), None)
    else if status.None? && previous.Some? && previous.value.phase != PreflightPhase then
      Stops("workspace_transfer_source_status_missing", Some(previous.value.sourceArchived), None)
    else if status.Some? && status.value.state in {Imported, Committed} then
      var s := status.value;
      var restored := Some(s.state == Committed);
      if s.state == Committed && !s.sourceArchived then
        Stops("workspace_transfer_source_status_incomplete", Some(false), None)
      else if s.targetWorkspaceId != Some(req.destination.workspaceId) || !s.receiptPresent then
        Stops("workspace_transfer_source_status_incomplete", Some(s.sourceArchived), restored)
      else if s.sourceHash.Some? && s.targetHash.Some? && s.sourceHash != s.targetHash then
        Stops("workspace_transfer_source_status_integrity_mismatch", Some(s.sourceArchived), restored)
      else if previous.Some? && previous.value.receipt.Some?
              && previous.value.receipt.value.targetWorkspaceId != req.destination.workspaceId then
        Stops("workspace_transfer_source_status_target_mismatch", Some(s.sourceArchived), restored)
      else Proceeds(false)
    else Proceeds(false)
  }

  /** The checks on what the two Servers report about themselves and the source Workspace. */
  function SourceVerdict(local: Local, status: Option<SourceStatus>, req: Request, probe: Probe): Verdict {
    var previous := local.checkpoint;
    var resumable := ResumableCutover(local, status, req);
    var committed := CommittedArchived(status);
    var state := probe.sourceState;
    if !probe.keysOk then Throws("workspace_transfer_identity_required")
    else if !probe.sourceReplied then Throws("workspace_transfer_source_request_failed")
    else if !probe.destinationReplied then Throws("workspace_transfer_destination_request_failed")
    else if !probe.sourceHealthy then StopWith("workspace_transfer_source_health_unavailable")
    else if !probe.destinationHealthy then StopWith("workspace_transfer_destination_health_unavailable")
    else if !probe.sameWorkspaceId then StopWith("workspace_transfer_source_workspace_mismatch")
    else if !probe.owner then StopWith("workspace_transfer_owner_required")
    else if status.Some? && state.Some? && status.value.workspaceState != state.value
            && !(committed && state == Some(Deleted)) then
      StopWith("workspace_transfer_source_status_state_mismatch")
    else if status.Some? && status.value.state in {Preparing, Exported} && state != Some(ReadOnly) then
      StopWith("workspace_transfer_source_status_state_mismatch")
    else if status.Some? && status.value.state == Imported
            && (state != Some(ReadOnly) || previous.None? || previous.value.receipt.None?) then
      Stops("workspace_transfer_source_status_incomplete", Some(status.value.sourceArchived), Some(true))
    else if committed && state != Some(Archived) && state != Some(Deleted) then
      Stops("workspace_transfer_source_status_state_mismatch", Some(status.value.sourceArchived), None)
    else if state == Some(Archived) && !resumable && !committed then
      Stops("workspace_transfer_source_not_transferable", Some(true), None)
    else if state == Some(ReadOnly) && !resumable
            && !(status.Some? && status.value.state in {Preparing, Imported, Committed})
            && probe.manifest != ManifestPresent then
      StopWith("workspace_transfer_source_not_transferable")
    else Proceeds(false)
  }

  /** The checks on the destination; what passes may still have to record a fresh preflight. */
  function DestinationVerdict(local: Local, status: Option<SourceStatus>, req: Request, probe: Probe): Verdict {
    var previous := local.checkpoint;
    var resumable := ResumableCutover(local, status, req);
    var mustExist := resumable || (status.Some? && status.value.state == Imported) || CommittedArchived(status);
    var recoveryPending :=
      && previous.Some? && !previous.value.sourceArchived && previous.value.phase == RestoringPhase
      && previous.value.destination == req.destination;
    var mayExist := recoveryPending && (status.None? || status.value.state in {Preparing, Exported});
    if mustExist && !probe.destinationExists then StopWith("workspace_transfer_destination_missing")
    else if !mustExist && !mayExist && probe.destinationExists then StopWith("workspace_transfer_destination_conflict")
    else if probe.sourceSchema.Some? && probe.destinationSchema.Some? && probe.sourceSchema != probe.destinationSchema then
      StopWith("workspace_transfer_schema_incompatible")
    else
      Proceeds(!resumable && !CommittedArchived(status)
               && !(previous.Some? && previous.value.phase == ArchivedPhase))
  }

  function PreflightVerdict(local: Local, status: Option<SourceStatus>, req: Request, probe: Probe): Verdict {
    var first := LedgerVerdict(local, status, req);
    if !first.Proceeds? then first
    else
      var second := SourceVerdict(local, status, req, probe);
      if !second.Proceeds? then second else DestinationVerdict(local, status, req, probe)
  }

  function FirstOf<T>(a: Option<T>, b: Option<T>): Option<T> {
    if a.Some? then a else b
  }

  /** The checkpoint of a call that was stopped before it could change a Server. */
  function StoppedCheckpoint(req: Request, previous: Option<Checkpoint>, code: string,
                             archived: Option<bool>, restored: Option<bool>): Checkpoint {
    Checkpoint(
      req.source, req.destination, FailedPhase,
      archived.GetOr(previous.Some? && previous.value.sourceArchived),
      FirstOf(restored, if previous.Some? then previous.value.targetRestored else None),
      if previous.Some? then previous.value.targetCleanupRequired else None,
      if previous.Some? then previous.value.integrityHash else None,
      if previous.Some? then previous.value.receipt else None,
      Some(code))
  }

  /** A stop changes nothing that is known of the transfer but its phase, its code and what it learnt of the two Workspaces. */
  lemma StopForgetsNothing(req: Request, previous: Checkpoint, code: string, archived: Option<bool>, restored: Option<bool>)
    ensures var c := StoppedCheckpoint(req, Some(previous), code, archived, restored);
            && c.phase == FailedPhase && c.failureCode == Some(code)
            && c.receipt == previous.receipt && c.integrityHash == previous.integrityHash
            && c.targetCleanupRequired == previous.targetCleanupRequired
            && (archived.None? ==> c.sourceArchived == previous.sourceArchived)
            && (restored.None? ==> c.targetRestored == previous.targetRestored)
  {
  }

  function PreflightCheckpoint(req: Request): Checkpoint {
    Checkpoint(req.source, req.destination, PreflightPhase, false, None, None, None, None, None)
  }

  /** A checkpoint of phase `preflight` never carries a receipt; every writer keeps this. */
  predicate PreflightBare(local: Local) {
    local.checkpoint.Some? && local.checkpoint.value.phase == PreflightPhase ==> local.checkpoint.value.receipt.None?
  }

  /** Only a call that neither resumes nor finds the source committed records a preflight. */
  lemma RecordingIsFresh(local: Local, status: Option<SourceStatus>, req: Request, probe: Probe)
    requires PreflightVerdict(local, status, req, probe).Proceeds? && PreflightVerdict(local, status, req, probe).recordPreflight
    ensures !ResumableCutover(local, status, req) && !CommittedArchived(status)
  {
  }

  /** What passes the preflight leaves the source usable, also after the preflight is recorded. */
  lemma PassingIsUsable(local: Local, status: Option<SourceStatus>, req: Request, probe: Probe)
    requires PreflightVerdict(local, status, req, probe).Proceeds? && !CommittedArchived(status)
    ensures SourceUsable(local, req)
    ensures PreflightVerdict(local, status, req, probe).recordPreflight ==>
              SourceUsable(local.(checkpoint := Some(PreflightCheckpoint(req))), req)
  {
    assert LedgerVerdict(local, status, req).Proceeds?;
  }

  /**
    A call that passes the preflight and goes on to resume the cutover has a
    read-only source, so its guard against an archived source never skips the
    receipt and complete requests.
   */
  lemma ResumeMeetsReadOnlySource(local: Local, status: Option<SourceStatus>, req: Request, probe: Probe)
    requires PreflightBare(local)
    requires PreflightVerdict(local, status, req, probe).Proceeds?
    requires ResumableCutover(local, status, req) && !CommittedArchived(status)
    ensures probe.sourceState == Some(ReadOnly)
  {
    assert status.Some?;
  }

  /** Whether the destination Workspace has to be there, and whether it may be. */
  predicate MustExist(local: Local, status: Option<SourceStatus>, req: Request) {
    ResumableCutover(local, status, req) || (status.Some? && status.value.state == Imported) || CommittedArchived(status)
  }

  predicate RecoversImport(local: Local, status: Option<SourceStatus>, req: Request) {
    && local.checkpoint.Some? && !local.checkpoint.value.sourceArchived && local.checkpoint.value.phase == RestoringPhase
    && (status.None? || status.value.state in {Preparing, Exported})
  }

  /** No replay, both sides listed, superseded by nothing else, and a ledger that neither failed nor contradicts itself. */
  predicate LedgerAdmits(local: Local, status: Option<SourceStatus>, req: Request) {
    var previous := local.checkpoint;
    var targets := local.registry.targets;
    && (previous.Some? ==> previous.value.source == req.source && previous.value.destination == req.destination)
    && req.destination.connectionId in local.registry.connections
    && (req.source in targets && targets[req.source].Some? ==> targets[req.source] == Some(req.destination))
    && (|| (status.Some? && status.value.state == Committed && status.value.sourceArchived)
        || (&& req.source.connectionId in local.registry.connections && req.source in targets
            && (targets[req.source].Some? ==> previous.Some? && !previous.value.sourceArchived)))
    && (status.None? && previous.Some? ==> previous.value.phase == PreflightPhase)
    && (status.Some? ==>
          var s := status.value;
          && s.state !in {RolledBack, Failed} && (s.state == Committed ==> s.sourceArchived)
          && (s.state in {Imported, Committed} ==>
                && s.receiptPresent && s.targetWorkspaceId == Some(req.destination.workspaceId)
                && (s.sourceHash.None? || s.targetHash.None? || s.sourceHash == s.targetHash)
                && (previous.Some? && previous.value.receipt.Some? ==>
                      previous.value.receipt.value.targetWorkspaceId == req.destination.workspaceId)))
  }

  /** Both Servers answer in good health, an owner asks for this Workspace, and its state fits the ledger. */
  predicate SourceAdmits(local: Local, status: Option<SourceStatus>, req: Request, probe: Probe) {
    var resumable := ResumableCutover(local, status, req);
    var state := probe.sourceState;
    && probe.keysOk && probe.sourceReplied && probe.destinationReplied && probe.sourceHealthy && probe.destinationHealthy
    && probe.sameWorkspaceId && probe.owner
    && (status.Some? && state.Some? ==>
          status.value.workspaceState == state.value || (CommittedArchived(status) && state == Some(Deleted)))
    && (status.Some? && status.value.state in {Preparing, Exported, Imported} ==> state == Some(ReadOnly))
    && (status.Some? && status.value.state == Imported ==> local.checkpoint.Some? && local.checkpoint.value.receipt.Some?)
    && (CommittedArchived(status) ==> state in {Some(Archived), Some(Deleted)})
    && (state == Some(Archived) ==> resumable || CommittedArchived(status))
    && (state == Some(ReadOnly) && probe.manifest != ManifestPresent ==>
          resumable || (status.Some? && status.value.state in {Preparing, Imported, Committed}))
  }

  /** One schema, and a destination Workspace that is there if it must be and only if it may be. */
  predicate DestinationAdmits(local: Local, status: Option<SourceStatus>, req: Request, probe: Probe) {
    && (probe.sourceSchema.None? || probe.destinationSchema.None? || probe.sourceSchema == probe.destinationSchema)
    && (MustExist(local, status, req) ==> probe.destinationExists)
    && (probe.destinationExists ==> MustExist(local, status, req) || RecoversImport(local, status, req))
  }

  lemma LedgerPassesExactly(local: Local, status: Option<SourceStatus>, req: Request)
    ensures LedgerVerdict(local, status, req).Proceeds? <==> LedgerAdmits(local, status, req)
  {
  }

  lemma SourcePassesExactly(local: Local, status: Option<SourceStatus>, req: Request, probe: Probe)
    requires LedgerAdmits(local, status, req)
    ensures SourceVerdict(local, status, req, probe).Proceeds? <==> SourceAdmits(local, status, req, probe)
  {
  }

  lemma DestinationPassesExactly(local: Local, status: Option<SourceStatus>, req: Request, probe: Probe)
    requires !ReplayMismatch(local.checkpoint, req)
    ensures DestinationVerdict(local, status, req, probe).Proceeds? <==> DestinationAdmits(local, status, req, probe)
  {
  }

  /** What passes the preflight, and nothing else does, whatever the order of its checks. */
  lemma PassesExactly(local: Local, status: Option<SourceStatus>, req: Request, probe: Probe)
    ensures PreflightVerdict(local, status, req, probe).Proceeds? <==>
              && LedgerAdmits(local, status, req) && SourceAdmits(local, status, req, probe)
              && DestinationAdmits(local, status, req, probe)
  {
    LedgerPassesExactly(local, status, req);
    if LedgerAdmits(local, status, req) {
      SourcePassesExactly(local, status, req, probe);
      DestinationPassesExactly(local, status, req, probe);
    }
  }

  predicate SomebodySaysArchived(local: Local, status: Option<SourceStatus>, probe: Probe) {
    || probe.sourceState == Some(Archived) || (status.Some? && status.value.sourceArchived)
    || (local.checkpoint.Some? && local.checkpoint.value.sourceArchived)
  }

  lemma LedgerStopsSpeakTruly(local: Local, status: Option<SourceStatus>, req: Request, probe: Probe)
    ensures var v := LedgerVerdict(local, status, req);
            v.Stops? && v.archived == Some(true) ==> SomebodySaysArchived(local, status, probe)
  {
  }

  lemma SourceStopsSpeakTruly(local: Local, status: Option<SourceStatus>, req: Request, probe: Probe)
    ensures var v := SourceVerdict(local, status, req, probe);
            v.Stops? && v.archived == Some(true) ==> SomebodySaysArchived(local, status, probe)
  {
  }

  /** A stop records the source as archived only if somebody says that it is. */
  lemma StopsSpeakTruly(local: Local, status: Option<SourceStatus>, req: Request, probe: Probe)
    requires PreflightVerdict(local, status, req, probe).Stops?
    ensures var stop := PreflightVerdict(local, status, req, probe);
            StoppedCheckpoint(req, local.checkpoint, stop.code, stop.archived, stop.restored).sourceArchived
            ==> SomebodySaysArchived(local, status, probe)
  {
    LedgerStopsSpeakTruly(local, status, req, probe);
    SourceStopsSpeakTruly(local, status, req, probe);
  }

  lemma LedgerTellsRestored(local: Local, status: Option<SourceStatus>, req: Request)
    ensures var v := LedgerVerdict(local, status, req);
            v.Stops? && v.restored.Some? ==>
              && status.Some? && status.value.state in {Imported, Committed}
              && v.restored.value == (status.value.state == Committed)
  {
  }

  lemma SourceTellsRestored(local: Local, status: Option<SourceStatus>, req: Request, probe: Probe)
    ensures var v := SourceVerdict(local, status, req, probe);
            v.Stops? && v.restored.Some? ==> status.Some? && status.value.state == Imported && v.restored.value
  {
  }

  lemma DestinationTellsNothing(local: Local, status: Option<SourceStatus>, req: Request, probe: Probe)
    ensures var v := DestinationVerdict(local, status, req, probe); v.Stops? ==> v.restored.None?
  {
  }

  /** Only an imported or committed row lets a stop say whether the destination is restored, and it says what the row says. */
  lemma StopsTellRestored(local: Local, status: Option<SourceStatus>, req: Request, probe: Probe)
    requires PreflightVerdict(local, status, req, probe).Stops? && PreflightVerdict(local, status, req, probe).restored.Some?
    ensures status.Some? && status.value.state in {Imported, Committed}
    ensures LedgerVerdict(local, status, req).Proceeds? ==>
              status.value.state == Imported && PreflightVerdict(local, status, req, probe).restored == Some(true)
    ensures !LedgerVerdict(local, status, req).Proceeds? ==>
              PreflightVerdict(local, status, req, probe).restored == Some(status.value.state == Committed)
  {
    LedgerTellsRestored(local, status, req);
    SourceTellsRestored(local, status, req, probe);
    DestinationTellsNothing(local, status, req, probe);
  }
}
