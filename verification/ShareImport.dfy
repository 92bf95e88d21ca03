/**
  Importing a Share link: view the source, claim it for this Account, sign a
  delegation for the claim, and import it at the selected target. Between any
  two steps the user may navigate; every step checks the navigation anew.
  Signatures are opaque.
 */
module ShareImport {
  import opened Wrappers
  import Activation

  // ----- navigation --------------------------------------------------------

  /** What is seen of the selection at one moment; `begun` counts the activations begun so far. */
  datatype Nav = Nav(
    connectionId: Option<string>,
    workspaceId: Option<string>,
    roomId: Option<string>,
    targetGeneration: nat,
    selectionGeneration: nat,
    begun: nat)

  datatype Snapshot = Snapshot(
    connectionId: string,
    workspaceId: string,
    targetGeneration: nat,
    selectionGeneration: nat,
    roomId: Option<string>)

  datatype Connection = Connection(serverOrigin: Result<string>, accountId: string)

  /** The later moment has seen at most as many new activations as its selection generation has advanced. */
  predicate Later(n: Nav, m: Nav) {
    && n.begun <= m.begun && n.selectionGeneration <= m.selectionGeneration
    && m.begun - n.begun <= m.selectionGeneration - n.selectionGeneration
  }

  lemma LaterIsTransitive(a: Nav, b: Nav, c: Nav)
    requires Later(a, b) && Later(b, c)
    ensures Later(a, c)
  {
  }

  function Capture(nav: Nav): Result<Snapshot> {
    if nav.connectionId.None? then Err("workspace_connection_not_selected")
    else if nav.workspaceId.None? then Err("workspace_selection_required")
    else Ok(Snapshot(nav.connectionId.value, nav.workspaceId.value, nav.targetGeneration, nav.selectionGeneration, nav.roomId))
  }

  /** What the caller may fix of the target; an absent part is not checked. */
  datatype TargetHint = TargetHint(
    connectionId: string,
    workspaceId: string,
    roomId: Option<string>,
    selectionGeneration: Option<nat>)

  function CaptureTarget(nav: Nav, hint: Option<TargetHint>): Result<Snapshot> {
    var snapshot :- Capture(nav);
    if hint.None? then Ok(snapshot)
    else
      var h := hint.value;
      var _ :- Need(h.connectionId == snapshot.connectionId && h.workspaceId == snapshot.workspaceId,
                    "workspace_navigation_changed");
      var _ :- Need(h.selectionGeneration.None? || h.selectionGeneration.value == snapshot.selectionGeneration,
                    "workspace_navigation_changed");
      var _ :- Need(h.roomId.None? || h.roomId == snapshot.roomId, "room_navigation_changed");
      Ok(snapshot)
  }

  /** Whether a request captured before an await still belongs to the active navigation. */
  predicate IsCurrent(snapshot: Snapshot, nav: Nav) {
    && nav.connectionId == Some(snapshot.connectionId) && nav.workspaceId == Some(snapshot.workspaceId)
    && nav.targetGeneration == snapshot.targetGeneration
    && (snapshot.roomId.None? || (nav.selectionGeneration == snapshot.selectionGeneration && nav.roomId == snapshot.roomId))
  }

  /** A Share keeps the whole snapshot, also when no Room is selected. */
  function StillThere(snapshot: Snapshot, nav: Nav): Result<()> {
    var _ :- Need(IsCurrent(snapshot, nav), "workspace_navigation_changed");
    var current :- Capture(nav);
    Need(current == snapshot, "workspace_navigation_changed")
  }

  function ConnectionFor(connections: map<string, Connection>, snapshot: Snapshot, nav: Nav): Result<Connection> {
    var _ :- Need(snapshot.connectionId in connections, "workspace_connection_not_selected");
    var _ :- Need(nav.connectionId == Some(snapshot.connectionId) && nav.workspaceId == Some(snapshot.workspaceId),
                  "workspace_navigation_changed");
    Ok(connections[snapshot.connectionId])
  }

  // ----- requests and replies ----------------------------------------------

  datatype LinkRequest = LinkRequest(
    sourceOrigin: string,
    locator: string,
    operationId: string,
    targetRoomId: Option<string>,
    hint: Option<TargetHint>)

  datatype ClaimBody = ClaimBody(targetOrigin: string, targetWorkspaceId: string, operationId: string, contentHash: string)

  datatype Claim = Claim(shareId: string, claimId: string, recipientAccountId: string, body: ClaimBody)

  datatype Payload = Payload(sourceOrigin: string, shareId: string, claimId: string, recipientAccountId: string, body: ClaimBody)

  datatype Delegation = Delegation(payload: Payload, signature: string)

  datatype Sent =
    | ViewSent(sourceOrigin: string, locator: string)
    | ClaimSent(sourceOrigin: string, locator: string, operationId: string, body: ClaimBody)
    | ImportSent(workspaceId: string, operationId: string, sourceOrigin: string, locator: string,
                 claimId: string, contentHash: string, delegation: Delegation)

  /** A reply as the sanitizers leave it: its status, and its body if that is well formed. */
  datatype Reply<T> = Reply(status: nat, body: Option<T>) | NoReply

  function Body<T>(reply: Reply<T>, allowed: set<nat>, code: string): Result<T> {
    if reply.NoReply? || reply.status !in allowed || reply.body.None? then Err(code) else Ok(reply.body.value)
  }

  /** What the world does during one import: the navigation after each await, and every reply. */
  datatype World = World(
    navs: seq<Nav>,
    keys: seq<bool>,
    view: Reply<string>,
    claim: Reply<Claim>,
    payloadValid: bool,
    imported: Reply<string>)

  predicate Plausible(world: World) {
    |world.navs| == 6 && |world.keys| == 2 && forall i | 0 <= i < 5 :: Later(world.navs[i], world.navs[i + 1])
  }

  // ----- the selection as the call meets it ---------------------------------

  /**
    What everything but activations contributes to a moment: the ids shown, and
    how often other code has advanced the two generations up to now.
   */
  datatype Elsewhere = Elsewhere(
    connectionId: Option<string>,
    workspaceId: Option<string>,
    roomId: Option<string>,
    targetAdvances: nat,
    selectionAdvances: nat)

  /** Other code advances the generations as well, and never sets them back. */
  predicate NeverBack(elsewhere: seq<Elsewhere>) {
    forall i | 0 <= i < |elsewhere| - 1 ::
      && elsewhere[i].targetAdvances <= elsewhere[i + 1].targetAdvances
      && elsewhere[i].selectionAdvances <= elsewhere[i + 1].selectionAdvances
  }

  method Look(selection: Activation.Selection, e: Elsewhere) returns (nav: Nav)
    ensures nav == Nav(e.connectionId, e.workspaceId, e.roomId, selection.targetGeneration + e.targetAdvances,
                       selection.selectionGeneration + e.selectionAdvances, |selection.stages|)
  {
    nav := Nav(e.connectionId, e.workspaceId, e.roomId, selection.targetGeneration + e.targetAdvances,
               selection.selectionGeneration + e.selectionAdvances, |selection.stages|);
  }

  /** The selection generation counts the activations begun and the advances made elsewhere. */
  predicate Counts(offset: int, nav: Nav, e: Elsewhere) {
    && nav.selectionGeneration == offset + nav.begun + e.selectionAdvances
    && nav.connectionId == e.connectionId && nav.workspaceId == e.workspaceId && nav.roomId == e.roomId
  }

  /** Six looks at the selection, with any sections of any activations between one await and the next. */
  method Watch(selection: Activation.Selection, between: seq<seq<Activation.Event>>, elsewhere: seq<Elsewhere>)
    returns (navs: seq<Nav>)
    requires |between| == 5 && |elsewhere| == 6 && NeverBack(elsewhere)
    modifies selection
    ensures |navs| == 6 && forall i | 0 <= i < 5 :: Later(navs[i], navs[i + 1])
    ensures navs[0].begun == old(|selection.stages|) && navs[5].begun == |selection.stages|
    ensures forall i | 0 <= i < 6 :: Counts(old(selection.selectionGeneration) - old(|selection.stages|), navs[i], elsewhere[i])
  {
    var nav := Look(selection, elsewhere[0]);
    navs := [nav];
    for n := 0 to 5
      invariant |navs| == n + 1
      invariant navs[0].begun == old(|selection.stages|) && navs[n].begun == |selection.stages|
      invariant selection.selectionGeneration - |selection.stages| == old(selection.selectionGeneration) - old(|selection.stages|)
      invariant forall i | 0 <= i < n :: Later(navs[i], navs[i + 1])
      invariant forall i | 0 <= i <= n :: Counts(old(selection.selectionGeneration) - old(|selection.stages|), navs[i], elsewhere[i])
    {
      var taken := selection.Drive(between[n]);
      nav := Look(selection, elsewhere[n + 1]);
      navs := navs + [nav];
    }
  }

  // ----- the checks --------------------------------------------------------

  function CheckClaim(claim: Claim, connection: Connection, body: ClaimBody): Result<()> {
    Need(claim.recipientAccountId == connection.accountId && claim.body == body, "workspace_share_claim_scope_invalid")
  }

  /** The delegation must be for the source, claim and content of the import, and for this very target. */
  function CheckDelegation(snapshot: Snapshot, connection: Connection, origin: string, request: LinkRequest,
                           claimId: string, contentHash: string, p: Payload): Result<()>
  {
    Need(&& p.sourceOrigin == request.sourceOrigin && p.claimId == claimId && p.body.contentHash == contentHash
         && p.body.operationId == request.operationId && p.body.targetWorkspaceId == snapshot.workspaceId
         && p.body.targetOrigin == origin && p.recipientAccountId == connection.accountId
         && (snapshot.roomId.None? || request.targetRoomId.None? || request.targetRoomId == snapshot.roomId),
         "workspace_share_delegation_target_invalid")
  }

  function RoomFits(request: LinkRequest, snapshot: Snapshot): Result<()> {
    Need(request.targetRoomId.None? || snapshot.roomId == request.targetRoomId, "room_navigation_changed")
  }

  // ----- when each request leaves --------------------------------------------

  /** The two moments show the same target, Room and generations. */
  predicate SameNav(a: Nav, b: Nav) {
    && a.connectionId == b.connectionId && a.workspaceId == b.workspaceId && a.roomId == b.roomId
    && a.targetGeneration == b.targetGeneration && a.selectionGeneration == b.selectionGeneration
  }

  /** Whatever the caller fixed of the target is what is selected. */
  predicate HintFits(hint: Option<TargetHint>, nav: Nav) {
    hint.Some? ==>
      && Some(hint.value.connectionId) == nav.connectionId && Some(hint.value.workspaceId) == nav.workspaceId
      && (hint.value.roomId.Some? ==> hint.value.roomId == nav.roomId)
      && (hint.value.selectionGeneration.Some? ==> hint.value.selectionGeneration.value == nav.selectionGeneration)
  }

  /** The view leaves for a selected target that fits, with the key, from an unmoved navigation and in the Room asked for. */
  predicate ViewLeaves(request: LinkRequest, connections: map<string, Connection>, world: World)
    requires Plausible(world)
  {
    var nav := world.navs[0];
    && nav.connectionId.Some? && nav.workspaceId.Some? && HintFits(request.hint, nav)
    && nav.connectionId.value in connections && world.keys[0] && SameNav(nav, world.navs[1])
    && (request.targetRoomId.Some? ==> request.targetRoomId == nav.roomId)
  }

  predicate ViewAnswered(world: World) {
    world.view.Reply? && world.view.status == 200 && world.view.body.Some?
  }

  /** The claim leaves once the view is answered, if the navigation has not moved and the server's origin is known. */
  predicate ClaimLeaves(request: LinkRequest, connections: map<string, Connection>, world: World)
    requires Plausible(world)
  {
    && ViewLeaves(request, connections, world) && SameNav(world.navs[0], world.navs[2]) && ViewAnswered(world)
    && world.keys[1] && SameNav(world.navs[0], world.navs[3])
    && connections[world.navs[0].connectionId.value].serverOrigin.Ok?
  }

  predicate ClaimAnswered(world: World) {
    world.claim.Reply? && (world.claim.status == 200 || world.claim.status == 201) && world.claim.body.Some?
  }

  /** What a claim asks for at the target selected when the call came in. */
  function ClaimBodyFor(request: LinkRequest, connections: map<string, Connection>, world: World): ClaimBody
    requires Plausible(world) && ClaimLeaves(request, connections, world)
  {
    var nav := world.navs[0];
    ClaimBody(connections[nav.connectionId.value].serverOrigin.value, nav.workspaceId.value, request.operationId,
              world.view.body.value)
  }

  /** The import leaves once the claim is granted to this Account for exactly what it asked. */
  predicate ImportLeaves(request: LinkRequest, connections: map<string, Connection>, world: World)
    requires Plausible(world)
  {
    && ClaimLeaves(request, connections, world) && SameNav(world.navs[0], world.navs[4]) && ClaimAnswered(world)
    && world.claim.body.value.recipientAccountId == connections[world.navs[0].connectionId.value].accountId
    && world.claim.body.value.body == ClaimBodyFor(request, connections, world)
    && world.payloadValid
  }

  predicate ImportAnswered(world: World) {
    world.imported.Reply? && (world.imported.status == 200 || world.imported.status == 201) && world.imported.body.Some?
  }

  /** The checks of one captured snapshot accept exactly an unmoved navigation. */
  lemma UnmovedIsStillThere(a: Nav, b: Nav)
    requires Capture(a).Ok?
    ensures StillThere(Capture(a).value, b).Ok? <==> SameNav(a, b)
  {
  }

  lemma UnmovedCapturesAlike(a: Nav, b: Nav, hint: Option<TargetHint>)
    requires SameNav(a, b)
    ensures Capture(a) == Capture(b) && CaptureTarget(a, hint) == CaptureTarget(b, hint)
  {
  }

  lemma TargetIsCapturedWhenItFits(nav: Nav, hint: Option<TargetHint>)
    ensures CaptureTarget(nav, hint).Ok? <==> nav.connectionId.Some? && nav.workspaceId.Some? && HintFits(hint, nav)
    ensures CaptureTarget(nav, hint).Ok? ==> CaptureTarget(nav, hint) == Capture(nav)
  {
  }

  /** Everything up to the source view's content hash. */
  method ViewSource(request: LinkRequest, connections: map<string, Connection>, world: World)
    returns (sent: seq<Sent>, r: Result<(Snapshot, string)>)
    requires Plausible(world)
    ensures sent == if ViewLeaves(request, connections, world) then [ViewSent(request.sourceOrigin, request.locator)] else []
    ensures r.Ok? <==>
              ViewLeaves(request, connections, world) && SameNav(world.navs[0], world.navs[2]) && ViewAnswered(world)
    ensures r.Ok? ==>
              && Capture(world.navs[0]) == Ok(r.value.0) == Capture(world.navs[2]) && world.view.body == Some(r.value.1)
              && RoomFits(request, r.value.0).Ok?
  {
    TargetIsCapturedWhenItFits(world.navs[0], request.hint);
    sent := [];
    var captured := CaptureTarget(world.navs[0], request.hint);
    if captured.Err? { return sent, Err(captured.code); }
    var snapshot := captured.value;
    var connection := ConnectionFor(connections, snapshot, world.navs[0]);
    if connection.Err? { return sent, Err(connection.code); }
    if !world.keys[0] { return sent, Err("workspace_identity_required"); }
    UnmovedIsStillThere(world.navs[0], world.navs[1]);
    var there := StillThere(snapshot, world.navs[1]);
    if there.Err? { return sent, Err(there.code); }
    var room := RoomFits(request, snapshot);
    if room.Err? { return sent, Err(room.code); }
    sent := [ViewSent(request.sourceOrigin, request.locator)];
    UnmovedIsStillThere(world.navs[0], world.navs[2]);
    there := StillThere(snapshot, world.navs[2]);
    if there.Err? { return sent, Err(there.code); }
    var hash := Body(world.view, {200}, "workspace_share_source_response_invalid");
    if hash.Err? { return sent, Err(hash.code); }
    r := Ok((snapshot, hash.value));
  }

  /** The view has been answered, and `first` and `contentHash` are what it left behind. */
  predicate Viewed(request: LinkRequest, connections: map<string, Connection>, world: World, first: Snapshot, contentHash: string)
    requires Plausible(world)
  {
    && ViewLeaves(request, connections, world) && SameNav(world.navs[0], world.navs[2]) && ViewAnswered(world)
    && Capture(world.navs[0]) == Ok(first) && world.view.body == Some(contentHash)
  }

  /** Claim the content for this Account and target. */
  method ClaimContent(request: LinkRequest, connections: map<string, Connection>, world: World,
                      first: Snapshot, contentHash: string)
    returns (sent: seq<Sent>, r: Result<(Connection, Claim)>)
    requires Plausible(world)
    ensures Viewed(request, connections, world, first, contentHash) && ClaimLeaves(request, connections, world) ==>
              sent == [ClaimSent(request.sourceOrigin, request.locator, request.operationId,
                                 ClaimBodyFor(request, connections, world))]
    ensures Viewed(request, connections, world, first, contentHash) && !ClaimLeaves(request, connections, world) ==> sent == []
    ensures Viewed(request, connections, world, first, contentHash) && r.Ok? ==>
              && ClaimLeaves(request, connections, world) && SameNav(world.navs[0], world.navs[4]) && ClaimAnswered(world)
              && r.value == (connections[first.connectionId], world.claim.body.value)
              && r.value.1.body == ClaimBodyFor(request, connections, world)
              && r.value.1.recipientAccountId == r.value.0.accountId
    ensures Viewed(request, connections, world, first, contentHash) && ImportLeaves(request, connections, world) ==> r.Ok?
    ensures sent == [] ==> r.Err?
    ensures |sent| <= 1
  {
    sent := [];
    TargetIsCapturedWhenItFits(world.navs[0], request.hint);
    if Viewed(request, connections, world, first, contentHash) {
      UnmovedCapturesAlike(world.navs[0], world.navs[2], request.hint);
    }
    var captured := CaptureTarget(world.navs[2], request.hint);
    if captured.Err? { return sent, Err(captured.code); }
    var snapshot := captured.value;
    if snapshot != first { return sent, Err("workspace_navigation_changed"); }
    var connection := ConnectionFor(connections, snapshot, world.navs[2]);
    if connection.Err? { return sent, Err(connection.code); }
    if !world.keys[1] { return sent, Err("workspace_identity_required"); }
    UnmovedIsStillThere(world.navs[2], world.navs[3]);
    var there := StillThere(snapshot, world.navs[3]);
    if there.Err? { return sent, Err(there.code); }
    var origin := connection.value.serverOrigin;
    if origin.Err? { return sent, Err(origin.code); }
    var body := ClaimBody(origin.value, snapshot.workspaceId, request.operationId, contentHash);
    sent := [ClaimSent(request.sourceOrigin, request.locator, request.operationId, body)];
    UnmovedIsStillThere(world.navs[2], world.navs[4]);
    there := StillThere(snapshot, world.navs[4]);
    if there.Err? { return sent, Err(there.code); }
    var claim := Body(world.claim, {200, 201}, "workspace_share_claim_response_invalid");
    if claim.Err? { return sent, Err(claim.code); }
    var scope := CheckClaim(claim.value, connection.value, body);
    if scope.Err? { return sent, Err(scope.code); }
    r := Ok((connection.value, claim.value));
  }

  /** View, claim and import speak of one source, claim, account, target, operation and content. */
  predicate Agree(sent: seq<Sent>, request: LinkRequest, snapshot: Snapshot, connection: Connection) {
    && |sent| == 3 && sent[0] == ViewSent(request.sourceOrigin, request.locator)
    && sent[1].ClaimSent? && sent[2].ImportSent?
    && var imported := sent[2];
    && var p := imported.delegation.payload;
    && imported.sourceOrigin == p.sourceOrigin == sent[1].sourceOrigin == sent[0].sourceOrigin
    && imported.locator == sent[1].locator == sent[0].locator
    && imported.claimId == p.claimId
    && p.recipientAccountId == connection.accountId
    && Ok(p.body.targetOrigin) == connection.serverOrigin
    && imported.workspaceId == p.body.targetWorkspaceId == snapshot.workspaceId
    && imported.operationId == p.body.operationId == sent[1].operationId == request.operationId
    && imported.contentHash == p.body.contentHash == sent[1].body.contentHash
    && p.body == sent[1].body
  }

  /**
    A whole import. How many requests leave, and whether the call returns, is
    told exactly by what is selected at each moment and by the replies. When the
    import request leaves, all three requests and the signed delegation agree on
    the target captured at receipt; when the call returns, no activation has
    begun since the request was received, and it returns the import's own reply.
   */
  method ImportLink(request: LinkRequest, connections: map<string, Connection>, world: World, sign: Payload -> string)
    returns (sent: seq<Sent>, r: Result<string>)
    requires Plausible(world)
    ensures |sent| <= 3
    ensures |sent| >= 1 <==> ViewLeaves(request, connections, world)
    ensures |sent| >= 2 <==> ClaimLeaves(request, connections, world)
    ensures |sent| == 3 <==> ImportLeaves(request, connections, world)
    ensures |sent| >= 1 ==> sent[0] == ViewSent(request.sourceOrigin, request.locator)
    ensures |sent| >= 2 ==>
              sent[1] == ClaimSent(request.sourceOrigin, request.locator, request.operationId,
                                   ClaimBodyFor(request, connections, world))
    ensures |sent| == 3 ==>
              && Capture(world.navs[0]).Ok? && Capture(world.navs[4]) == Capture(world.navs[0])
              && var snapshot := Capture(world.navs[0]).value;
              && snapshot.connectionId in connections
              && Agree(sent, request, snapshot, connections[snapshot.connectionId])
              && sent[2].delegation.signature == sign(sent[2].delegation.payload)
              && world.view.Reply? && world.view.body == Some(sent[2].contentHash)
              && world.claim.Reply? && world.claim.body.Some? && world.claim.body.value.claimId == sent[2].claimId
              && world.claim.body.value.shareId == sent[2].delegation.payload.shareId
              && world.navs[4].begun == world.navs[0].begun
    ensures r.Ok? <==> |sent| == 3 && SameNav(world.navs[0], world.navs[5]) && ImportAnswered(world)
    ensures r.Ok? ==> r.value == world.imported.body.value && world.navs[5].begun == world.navs[0].begun
    ensures |sent| == 3 && r.Err? ==>
              r.code == if SameNav(world.navs[0], world.navs[5]) then "workspace_share_import_failed"
                        else "workspace_navigation_changed"
  {
    var viewed: Result<(Snapshot, string)>;
    sent, viewed := ViewSource(request, connections, world);
    if viewed.Err? { return sent, Err(viewed.code); }
    var snapshot, contentHash := viewed.value.0, viewed.value.1;
    var claims, claimed := ClaimContent(request, connections, world, snapshot, contentHash);
    sent := sent + claims;
    if claimed.Err? { return sent, Err(claimed.code); }
    var connection, claim := claimed.value.0, claimed.value.1;
    var payload := Payload(request.sourceOrigin, claim.shareId, claim.claimId, connection.accountId, claim.body);
    if !world.payloadValid { return sent, Err("workspace_share_delegation_invalid"); }
    var delegation := Delegation(payload, sign(payload));
    var bound := CheckDelegation(snapshot, connection, claim.body.targetOrigin, request, claim.claimId, contentHash, payload);
    if bound.Err? { return sent, Err(bound.code); }
    sent := sent + [ImportSent(snapshot.workspaceId, request.operationId, request.sourceOrigin, request.locator,
                               claim.claimId, contentHash, delegation)];
    UnmovedCapturesAlike(world.navs[0], world.navs[4], None);
    NothingBegan(world, 4);
    UnmovedIsStillThere(world.navs[0], world.navs[5]);
    var there := StillThere(snapshot, world.navs[5]);
    if there.Err? { return sent, Err(there.code); }
    UnmovedCapturesAlike(world.navs[0], world.navs[5], None);
    NothingBegan(world, 5);
    r := Body(world.imported, {200, 201}, "workspace_share_import_failed");
  }

  /**
    A whole import beside any activations: if it returns, no activation began
    while it ran, and if its import request left, none had begun until then.
   */
  method ImportDuringActivations(selection: Activation.Selection, between: seq<seq<Activation.Event>>, elsewhere: seq<Elsewhere>,
                                 request: LinkRequest, connections: map<string, Connection>, keys: seq<bool>,
                                 view: Reply<string>, claim: Reply<Claim>, payloadValid: bool, imported: Reply<string>,
                                 sign: Payload -> string)
    returns (navs: seq<Nav>, sent: seq<Sent>, r: Result<string>)
    requires |between| == 5 && |elsewhere| == 6 && NeverBack(elsewhere) && |keys| == 2
    modifies selection
    ensures |navs| == 6 && navs[0].begun == old(|selection.stages|)
    ensures |sent| == 3 ==> navs[4].begun == old(|selection.stages|)
    ensures r.Ok? ==> |sent| == 3 && |selection.stages| == old(|selection.stages|)
    ensures forall i | 0 <= i < 6 ::
              && navs[i].connectionId == elsewhere[i].connectionId && navs[i].workspaceId == elsewhere[i].workspaceId
              && navs[i].roomId == elsewhere[i].roomId
    ensures Plausible(World(navs, keys, view, claim, payloadValid, imported))
    ensures r.Ok? <==>
              && ImportLeaves(request, connections, World(navs, keys, view, claim, payloadValid, imported))
              && SameNav(navs[0], navs[5])
              && imported.Reply? && (imported.status == 200 || imported.status == 201) && imported.body.Some?
    ensures r.Ok? ==> r.value == imported.body.value
    ensures r.Ok? ==> elsewhere[0].selectionAdvances == elsewhere[5].selectionAdvances
  {
    navs := Watch(selection, between, elsewhere);
    sent, r := ImportLink(request, connections, World(navs, keys, view, claim, payloadValid, imported), sign);
    ghost var offset := old(selection.selectionGeneration) - old(|selection.stages|);
    assert Counts(offset, navs[0], elsewhere[0]) && Counts(offset, navs[5], elsewhere[5]);
  }

  /** Equal snapshots at two moments mean that no activation began between them. */
  lemma NothingBegan(world: World, k: nat)
    requires Plausible(world) && 0 < k <= 5
    requires Capture(world.navs[0]).Ok? && Capture(world.navs[k]) == Capture(world.navs[0])
    ensures world.navs[k].begun == world.navs[0].begun
  {
    var i := 1;
    while i < k
      invariant 1 <= i <= k && Later(world.navs[0], world.navs[i])
    {
      LaterIsTransitive(world.navs[0], world.navs[i], world.navs[i + 1]);
      i := i + 1;
    }
  }
}
