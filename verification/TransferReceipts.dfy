/**
  The stability of transfer receipts and of the operation ids that make a
  request repeatable. A truncated digest is a function parameter; where a result
  needs two digests to differ, it asks that these two inputs do not collide.
 */
module TransferReceipts {
  import opened Wrappers
  import opened TransferTypes
  import opened TransferDecisions

  type Digest = string -> string

  const DIGEST_LENGTH := 48

  /** The digests of these two inputs are as long as they should be and tell them apart. */
  predicate Separates(digest: Digest, a: string, b: string) {
    |digest(a)| == |digest(b)| == DIGEST_LENGTH && (digest(a) == digest(b) ==> a == b)
  }

  // ----- operation ids -----------------------------------------------------

  datatype RequestPhase = Manifest | Bundle | Import | ReceiptPhase | Complete | RollbackPhase

  function PhaseName(phase: RequestPhase): string {
    match phase
    case Manifest => "manifest"
    case Bundle => "bundle"
    case Import => "import"
    case ReceiptPhase => "receipt"
    case Complete => "complete"
    case RollbackPhase => "rollback"
  }

  function PhaseInput(transferId: string, phase: RequestPhase): string { transferId + ":" + PhaseName(phase) }

  /** The id of every request but begin, which uses the transfer id itself. */
  function PhaseOperationId(digest: Digest, transferId: string, phase: RequestPhase): string {
    "desktop_transfer_" + PhaseName(phase) + "_" + digest(PhaseInput(transferId, phase))
  }

  function ReceiptInput(transferId: string, r: Receipt): string {
    transferId + ":" + r.targetWorkspaceId + ":" + r.sourceHash + ":" + r.targetHash
  }

  /** Receipts are addressed by their content. */
  function ReceiptOperationId(digest: Digest, transferId: string, r: Receipt): string {
    "desktop_transfer_receipt_" + digest(ReceiptInput(transferId, r))
  }

  /** Equal concatenations with equally long ends have equal ends. */
  lemma EndsAreEqual(a: string, b: string, c: string, d: string)
    requires a + b == c + d && |b| == |d|
    ensures a == c && b == d
  {
    assert (a + b)[|a|..] == b && (c + d)[|c|..] == d;
    assert (a + b)[..|a|] == a && (c + d)[..|c|] == c;
  }

  lemma PhaseNamesAreDistinct(p: RequestPhase, q: RequestPhase)
    ensures PhaseName(p) == PhaseName(q) <==> p == q
    ensures forall i | 0 <= i < |PhaseName(p)| :: PhaseName(p)[i] != ':'
  {
    var n, m := PhaseName(p), PhaseName(q);
    if n == m {
      assert n[0] == m[0] && |n| == |m| && n[2] == m[2];
    }
  }

  /** A tail without a colon is what follows the last colon. */
  lemma LastColonSplits(a: string, b: string, c: string, d: string)
    requires a + ":" + b == c + ":" + d && ':' !in b && ':' !in d
    ensures a == c && b == d
  {
    var s := a + ":" + b;
    assert s[|a|] == ':' && forall i | |a| < i < |s| :: s[i] == b[i - |a| - 1];
    assert s == c + ":" + d && s[|c|] == ':' && forall i | |c| < i < |s| :: s[i] == d[i - |c| - 1];
    assert |b| == |d|;
    EndsAreEqual(a + ":", b, c + ":", d);
    EndsAreEqual(a, ":", c, ":");
  }

  /** Different requests, of one transfer or of two, have different ids. */
  lemma PhaseIdsAreDistinct(digest: Digest, t: string, p: RequestPhase, u: string, q: RequestPhase)
    requires Separates(digest, PhaseInput(t, p), PhaseInput(u, q))
    ensures PhaseOperationId(digest, t, p) == PhaseOperationId(digest, u, q) <==> t == u && p == q
  {
    if PhaseOperationId(digest, t, p) == PhaseOperationId(digest, u, q) {
      EndsAreEqual("desktop_transfer_" + PhaseName(p) + "_", digest(PhaseInput(t, p)),
                   "desktop_transfer_" + PhaseName(q) + "_", digest(PhaseInput(u, q)));
      PhaseNamesAreDistinct(p, q);
      PhaseNamesAreDistinct(q, p);
      LastColonSplits(t, PhaseName(p), u, PhaseName(q));
    }
  }

  /** Two receipts have one operation id exactly when transfer with target, and both hashes, are the same text. */
  lemma ReceiptIdsAreContentAddressed(digest: Digest, t: string, r: Receipt, u: string, s: Receipt)
    requires Separates(digest, ReceiptInput(t, r), ReceiptInput(u, s))
    requires IsDigest(r.sourceHash) && IsDigest(r.targetHash) && IsDigest(s.sourceHash) && IsDigest(s.targetHash)
    ensures ReceiptOperationId(digest, t, r) == ReceiptOperationId(digest, u, s) <==>
              && t + ":" + r.targetWorkspaceId == u + ":" + s.targetWorkspaceId
              && r.sourceHash == s.sourceHash && r.targetHash == s.targetHash
  {
    var a, b := t + ":" + r.targetWorkspaceId, u + ":" + s.targetWorkspaceId;
    if ReceiptOperationId(digest, t, r) == ReceiptOperationId(digest, u, s) {
      EndsAreEqual("desktop_transfer_receipt_", digest(ReceiptInput(t, r)),
                   "desktop_transfer_receipt_", digest(ReceiptInput(u, s)));
      EndsAreEqual(a + ":" + r.sourceHash + ":", r.targetHash, b + ":" + s.sourceHash + ":", s.targetHash);
      EndsAreEqual(a + ":" + r.sourceHash, ":", b + ":" + s.sourceHash, ":");
      EndsAreEqual(a + ":", r.sourceHash, b + ":", s.sourceHash);
      EndsAreEqual(a, ":", b, ":");
    }
  }

  /** Within one transfer: a retried receipt has the same id if and only if target and hashes are unchanged. */
  lemma RetriedReceiptKeepsItsId(digest: Digest, t: string, r: Receipt, s: Receipt)
    requires Separates(digest, ReceiptInput(t, r), ReceiptInput(t, s))
    requires IsDigest(r.sourceHash) && IsDigest(r.targetHash) && IsDigest(s.sourceHash) && IsDigest(s.targetHash)
    ensures ReceiptOperationId(digest, t, r) == ReceiptOperationId(digest, t, s) <==>
              && r.targetWorkspaceId == s.targetWorkspaceId
              && r.sourceHash == s.sourceHash && r.targetHash == s.targetHash
  {
    ReceiptIdsAreContentAddressed(digest, t, r, t, s);
    var w, x := r.targetWorkspaceId, s.targetWorkspaceId;
    if t + ":" + w == t + ":" + x {
      assert (t + ":" + w)[|t| + 1..] == w && (t + ":" + x)[|t| + 1..] == x;
    }
  }

  /** The ids that requests may carry: a letter or digit, then up to 127 characters that include the colon. */
  predicate IsOpaqueId(s: string) {
    1 <= |s| <= 128 && IsAlphanumeric(s[0]) && forall i | 0 <= i < |s| :: IsAlphanumeric(s[i]) || s[i] in "._:-"
  }

  predicate IsAlphanumeric(c: char) { 'A' <= c <= 'Z' || 'a' <= c <= 'z' || '0' <= c <= '9' }

  /**
    Across transfers the colon is ambiguous: whatever the bundle hash, there are two
    well-formed receipts of two different transfers that share their id.
   */
  lemma ReceiptIdsCanMeet(digest: Digest, hash: string) returns (t: string, r: Receipt, u: string, s: Receipt)
    requires IsDigest(hash)
    ensures IsOpaqueId(t) && IsOpaqueId(u) && IsOpaqueId(r.targetWorkspaceId) && IsOpaqueId(s.targetWorkspaceId)
    ensures r == Receipt(t, "w", hash, r.targetWorkspaceId, "2026-01-01T00:00:00.000Z", hash)
    ensures s == Receipt(u, "w", hash, s.targetWorkspaceId, "2026-01-01T00:00:00.000Z", hash)
    ensures t != u && r.targetWorkspaceId != s.targetWorkspaceId
    ensures ReceiptOperationId(digest, t, r) == ReceiptOperationId(digest, u, s)
  {
    t, u := "a", "a:b";
    r := Receipt(t, "w", hash, "b:c", "2026-01-01T00:00:00.000Z", hash);
    s := Receipt(u, "w", hash, "c", "2026-01-01T00:00:00.000Z", hash);
    assert t + ":" + r.targetWorkspaceId == u + ":" + s.targetWorkspaceId;
  }

  /** A receipt never has the id of a phase, not even of the phase called receipt. */
  lemma ReceiptIdsAreNoPhaseIds(digest: Digest, t: string, r: Receipt, u: string, q: RequestPhase)
    requires Separates(digest, ReceiptInput(t, r), PhaseInput(u, q)) && IsDigest(r.targetHash)
    ensures ReceiptOperationId(digest, t, r) != PhaseOperationId(digest, u, q)
  {
    if ReceiptOperationId(digest, t, r) == PhaseOperationId(digest, u, q) {
      EndsAreEqual("desktop_transfer_receipt_", digest(ReceiptInput(t, r)),
                   "desktop_transfer_" + PhaseName(q) + "_", digest(PhaseInput(u, q)));
      PhaseNamesAreDistinct(q, q);
      LastColonSplits(t + ":" + r.targetWorkspaceId + ":" + r.sourceHash, r.targetHash, u, PhaseName(q));
    }
  }

  /** An id of at least this length can be a phase's or a receipt's; a generated transfer id has 53 characters. */
  const SHORTEST_OPERATION_ID := |"desktop_transfer_import_"| + DIGEST_LENGTH

  /** The begin request uses the transfer id itself: no shorter id is the one of a phase or of a receipt. */
  lemma ShortTransferIdsStandAlone(digest: Digest, t: string, u: string, q: RequestPhase, r: Receipt)
    requires |digest(PhaseInput(u, q))| == |digest(ReceiptInput(u, r))| == DIGEST_LENGTH
    requires |t| < SHORTEST_OPERATION_ID
    ensures t != PhaseOperationId(digest, u, q) && t != ReceiptOperationId(digest, u, r)
  {
    assert |PhaseName(q)| >= 6;
  }

  /** One of that length can be: a transfer may be given the id under which another one's import is sent. */
  lemma LongTransferIdsCanMeet(digest: Digest, u: string)
    requires var d := digest(PhaseInput(u, Import));
             |d| == DIGEST_LENGTH && forall i | 0 <= i < |d| :: '0' <= d[i] <= '9' || 'a' <= d[i] <= 'f'
    ensures IsOpaqueId(PhaseOperationId(digest, u, Import)) && |PhaseOperationId(digest, u, Import)| == SHORTEST_OPERATION_ID
  {
    var id, front := PhaseOperationId(digest, u, Import), "desktop_transfer_import_";
    assert id == front + digest(PhaseInput(u, Import));
    assert forall i | 0 <= i < |front| :: IsAlphanumeric(front[i]) || front[i] == '_';
    forall i | 0 <= i < |id| ensures IsAlphanumeric(id[i]) || id[i] in "._:-" {
      if i < |front| {
        assert id[i] == front[i] && "._:-"[1] == '_';
      } else {
        assert id[i] == digest(PhaseInput(u, Import))[i - |front|];
      }
    }
  }

  // ----- reconciliation ----------------------------------------------------

  /** The hashes that the source Server, or else the local checkpoint, holds for a receipt. */
  function DurableSourceHash(r: Receipt, status: Option<SourceStatus>, localHash: Option<string>): string {
    if status.Some? && status.value.sourceHash.Some? then status.value.sourceHash.value else localHash.GetOr(r.sourceHash)
  }

  function DurableTargetHash(r: Receipt, status: Option<SourceStatus>, localHash: Option<string>): string {
    if status.Some? && status.value.targetHash.Some? then status.value.targetHash.value
    else DurableSourceHash(r, status, localHash)
  }

  /** Reconciling keeps identity and timestamp, takes over the durable hashes, and is done after one time. */
  lemma ReconcilingIsStable(r: Receipt, status: Option<SourceStatus>, localHash: Option<string>,
                            source: string, destination: string)
    ensures var repaired := ReconcileReceipt(Some(r), status, localHash, source, destination);
            && (repaired.Some? <==>
                  && r.sourceWorkspaceId == source && r.targetWorkspaceId == destination
                  && IsDigest(DurableSourceHash(r, status, localHash)) && IsDigest(DurableTargetHash(r, status, localHash)))
            && (repaired.Some? ==>
                  && repaired.value == Receipt(r.transferId, r.sourceWorkspaceId, DurableSourceHash(r, status, localHash),
                                               r.targetWorkspaceId, r.importedAt, DurableTargetHash(r, status, localHash))
                  && ReconcileReceipt(repaired, status, localHash, source, destination) == repaired)
  {
  }

  /** A receipt whose durable hashes agree with it stays as it is, and so does its operation id. */
  lemma AgreeingReceiptIsKept(digest: Digest, r: Receipt, status: Option<SourceStatus>, localHash: Option<string>,
                              source: string, destination: string)
    requires ReconcileReceipt(Some(r), status, localHash, source, destination).Some?
    requires IsDigest(r.sourceHash) && IsDigest(r.targetHash)
    requires var repaired := ReconcileReceipt(Some(r), status, localHash, source, destination).value;
             Separates(digest, ReceiptInput(r.transferId, r), ReceiptInput(r.transferId, repaired))
    ensures var repaired := ReconcileReceipt(Some(r), status, localHash, source, destination).value;
            && (repaired == r <==> DurableSourceHash(r, status, localHash) == r.sourceHash
                                   && DurableTargetHash(r, status, localHash) == r.targetHash)
            && (ReceiptOperationId(digest, r.transferId, repaired) == ReceiptOperationId(digest, r.transferId, r) <==> repaired == r)
  {
    var repaired := ReconcileReceipt(Some(r), status, localHash, source, destination).value;
    ReconcilingIsStable(r, status, localHash, source, destination);
    RetriedReceiptKeepsItsId(digest, r.transferId, r, repaired);
  }
}
