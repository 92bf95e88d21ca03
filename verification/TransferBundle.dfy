/** The check of an exported bundle before it is sent on: its header, its entries and its size. */
module TransferBundle {
  import opened Wrappers
  import opened TransferDecisions
  import Base64
  import WorkspacePaths

  const MAX_ENTRIES := 200_000
  const MAX_BYTES := 120_000_000
  const MAX_PATH := 1024

  datatype Manifest = Manifest(formatVersion: int, workspaceId: string, transferId: string, integrityHash: string, hasFiles: bool)

  /** An entry as it arrives; `Malformed` lacks a path or a content. */
  datatype RawEntry = RawEntry(path: string, content: string) | Malformed

  datatype Transport = Transport(format: string, manifest: Option<Manifest>, entries: Option<seq<RawEntry>>)

  datatype Bundle = Bundle(entries: seq<RawEntry>, entryCount: nat, dataByteSize: nat)

  predicate HeaderFits(t: Transport, transferId: string, sourceWorkspaceId: string) {
    && t.format in {"samurai-workspace-bundle-v3", "samurai-workspace-bundle-v4"}
    && t.manifest.Some? && t.entries.Some?
    && t.manifest.value.formatVersion == (if t.format == "samurai-workspace-bundle-v4" then 4 else 3)
    && t.manifest.value.workspaceId == sourceWorkspaceId && t.manifest.value.transferId == transferId
    && IsDigest(t.manifest.value.integrityHash) && t.manifest.value.hasFiles
  }

  /** A path and a content that may be sent on. */
  predicate EntryFits(e: RawEntry) {
    && e.RawEntry? && e.path != "" && |e.path| <= MAX_PATH
    && WorkspacePaths.IsSafe(e.path) && Base64.IsBase64(e.content)
  }

  predicate EntriesFit(entries: seq<RawEntry>) { forall i | 0 <= i < |entries| :: EntryFits(entries[i]) }

  predicate DistinctPaths(entries: seq<RawEntry>)
    requires EntriesFit(entries)
  {
    forall i, j | 0 <= i < j < |entries| :: entries[i].path != entries[j].path
  }

  /** The number of bytes that all contents decode to. */
  function DataByteSize(entries: seq<RawEntry>): nat
    requires EntriesFit(entries)
  {
    if entries == [] then 0
    else DataByteSize(entries[..|entries| - 1]) + |Base64.Decode(entries[|entries| - 1].content)|
  }

  /** Three quarters of all content lengths, less the padding. */
  function SizeByLengths(entries: seq<RawEntry>): int
    requires EntriesFit(entries)
  {
    if entries == [] then 0
    else SizeByLengths(entries[..|entries| - 1]) + Base64.DecodedSize(entries[|entries| - 1].content)
  }

  lemma {:induction false} SizesAreEqual(entries: seq<RawEntry>)
    requires EntriesFit(entries)
    ensures DataByteSize(entries) == SizeByLengths(entries)
  {
    if entries != [] {
      SizesAreEqual(entries[..|entries| - 1]);
      Base64.SizeIsExact(entries[|entries| - 1].content);
    }
  }

  lemma {:induction false} PrefixIsSmaller(entries: seq<RawEntry>, n: nat)
    requires EntriesFit(entries) && n <= |entries|
    ensures DataByteSize(entries[..n]) <= DataByteSize(entries)
    decreases |entries|
  {
    if n < |entries| {
      PrefixIsSmaller(entries[..|entries| - 1], n);
      assert entries[..|entries| - 1][..n] == entries[..n];
    } else {
      assert entries[..n] == entries;
    }
  }

  predicate Acceptable(t: Transport, transferId: string, sourceWorkspaceId: string, expectedHash: Option<string>) {
    && t.manifest.Some? && t.entries.Some?
    && var m, entries := t.manifest.value, t.entries.value;
    && (|| (t.format == "samurai-workspace-bundle-v3" && m.formatVersion == 3)
        || (t.format == "samurai-workspace-bundle-v4" && m.formatVersion == 4))
    && m.workspaceId == sourceWorkspaceId && m.transferId == transferId && m.hasFiles
    && |m.integrityHash| == 64 && (forall c | c in m.integrityHash :: c in "0123456789abcdef")
    && (expectedHash.Some? ==> expectedHash.value == m.integrityHash)
    && |entries| <= 200_000 && EntriesFit(entries) && DistinctPaths(entries) && DataByteSize(entries) <= 120_000_000
  }

  lemma DigestIsHex(s: string)
    ensures IsDigest(s) <==> |s| == 64 && forall c | c in s :: c in "0123456789abcdef"
  {
    assert forall c: char :: c in "0123456789abcdef" <==> '0' <= c <= '9' || 'a' <= c <= 'f';
    if forall c | c in s :: c in "0123456789abcdef" {
      assert forall i | 0 <= i < |s| :: s[i] in s;
    }
  }

  /**
    Accepts exactly the acceptable bundles, keeps their entries in order, and
    reports the bytes they decode to, which the text lengths alone determine.
   */
  method Validate(t: Transport, transferId: string, sourceWorkspaceId: string, expectedHash: Option<string>)
    returns (r: Result<Bundle>)
    ensures r.Ok? <==> Acceptable(t, transferId, sourceWorkspaceId, expectedHash)
    ensures r.Ok? ==>
              && r.value.entries == t.entries.value && r.value.entryCount == |r.value.entries|
              && r.value.dataByteSize == SizeByLengths(r.value.entries) <= MAX_BYTES
              && forall i | 0 <= i < |r.value.entries| :: WorkspacePaths.Resolved(r.value.entries[i].path) == r.value.entries[i].path
  {
    if t.manifest.Some? {
      DigestIsHex(t.manifest.value.integrityHash);
    }
    if !HeaderFits(t, transferId, sourceWorkspaceId) {
      return Err("workspace_transfer_bundle_invalid");
    }
    if expectedHash.Some? && expectedHash.value != t.manifest.value.integrityHash {
      return Err("workspace_transfer_bundle_mismatch");
    }
    if |t.entries.value| > MAX_ENTRIES {
      return Err("workspace_transfer_bundle_too_large");
    }
    r := ValidateEntries(t.entries.value);
  }

  lemma OneMoreFits(entries: seq<RawEntry>, n: nat)
    requires n < |entries| && EntriesFit(entries[..n]) && DistinctPaths(entries[..n]) && EntryFits(entries[n])
    requires forall i | 0 <= i < n :: entries[i].path != entries[n].path
    ensures EntriesFit(entries[..n + 1]) && DistinctPaths(entries[..n + 1])
    ensures DataByteSize(entries[..n + 1]) == DataByteSize(entries[..n]) + |Base64.Decode(entries[n].content)|
  {
    assert entries[..n + 1][..n] == entries[..n];
    assert forall i | 0 <= i < n :: entries[..n + 1][i] == entries[..n][i] == entries[i];
  }

  lemma BadEntryIsRefused(entries: seq<RawEntry>, n: nat)
    requires n < |entries|
    ensures !EntryFits(entries[n]) ==> !EntriesFit(entries)
    ensures EntriesFit(entries) && (exists i :: 0 <= i < n && entries[i].path == entries[n].path) ==> !DistinctPaths(entries)
  {
  }

  /** The loop over the entries, with the paths seen and the bytes so far. */
  method ValidateEntries(entries: seq<RawEntry>) returns (r: Result<Bundle>)
    ensures r.Ok? <==> EntriesFit(entries) && DistinctPaths(entries) && DataByteSize(entries) <= MAX_BYTES
    ensures r.Ok? ==>
              && r.value == Bundle(entries, |entries|, DataByteSize(entries))
              && DataByteSize(entries) == SizeByLengths(entries)
              && forall i | 0 <= i < |entries| :: WorkspacePaths.Resolved(entries[i].path) == entries[i].path
  {
    var seen: set<string> := {};
    var dataByteSize := 0;
    var n := 0;
    while n < |entries|
      invariant 0 <= n <= |entries|
      invariant EntriesFit(entries[..n]) && DistinctPaths(entries[..n])
      invariant forall path :: path in seen <==> exists i :: 0 <= i < n && entries[i].path == path
      invariant dataByteSize == DataByteSize(entries[..n]) <= MAX_BYTES
    {
      var entry := entries[n];
      BadEntryIsRefused(entries, n);
      if entry.Malformed? || entry.path == "" || |entry.path| > MAX_PATH || entry.path in seen {
        return Err("workspace_transfer_bundle_entry_invalid");
      }
      if !WorkspacePaths.IsSafe(entry.path) {
        return Err("workspace_transfer_bundle_path_invalid");
      }
      if !Base64.IsBase64(entry.content) {
        return Err("workspace_transfer_bundle_entry_invalid");
      }
      OneMoreFits(entries, n);
      seen := seen + {entry.path};
      dataByteSize := dataByteSize + |Base64.Decode(entry.content)|;
      if dataByteSize > MAX_BYTES {
        if EntriesFit(entries) {
          PrefixIsSmaller(entries, n + 1);
        }
        return Err("workspace_transfer_bundle_too_large");
      }
      n := n + 1;
    }
    assert entries[..n] == entries;
    SizesAreEqual(entries);
    forall i | 0 <= i < |entries| ensures WorkspacePaths.Resolved(entries[i].path) == entries[i].path {
      WorkspacePaths.SafePathsResolveToThemselves(entries[i].path);
    }
    r := Ok(Bundle(entries, |entries|, dataByteSize));
  }
}
