/**
  Concurrent activations of Workspace targets. Every activation runs in atomic
  sections between its awaits: it begins and takes a generation, its
  authorization arrives, its turn in the commit chain comes, its save ends, and
  it resumes after the save. Any interleaving of these sections is a run.
 */
module Activation {
  import opened Wrappers
  import opened TransferTypes

  /** What the registry keeps about one target. */
  datatype Entry = Entry(supersededBy: Option<Target>, organization: Option<string>, room: Option<string>)

  datatype Book = Book(connections: set<string>, entries: map<Target, Entry>, active: Option<Target>)

  /** What an authorized activation writes; `listed` was observed when it began. */
  datatype Choice = Choice(target: Target, listed: bool, organization: Option<string>, room: Option<string>)

  datatype Authorization =
    | Authorized(organization: Option<string>, room: Option<string>)
    | IdentityRequired
    | Offline
    | Denied

  /** Where an activation stands; its index is its generation. */
  datatype Stage =
    | Authorizing(target: Target, wanted: Option<string>, listed: bool)
    | Queued(choice: Choice, next: Book)
    | Saving(choice: Choice, next: Book)
    | Landed(choice: Choice, next: Book)  // the file is written, the continuation has not run
    | Won(choice: Choice)
    | Rejected(code: string)
    | Overtaken                           // a newer activation owns the selection
    | Abandoned(choice: Choice)           // a newer one came while this one was being saved

  datatype Commit = Commit(generation: nat, choice: Choice)

  datatype State = State(
    memory: Book,
    disk: Book,
    active: Option<Target>,
    stages: seq<Stage>,
    chain: seq<nat>,
    commits: seq<Commit>)

  datatype Event =
    | Begin(target: Target, wanted: Option<string>)
    | Answer(generation: nat, authorization: Authorization)
    | TakeTurn
    | SaveEnds(written: bool)
    | Resume

  // ----- the registry ------------------------------------------------------

  /** Add the target if it was not listed, record where it was left, select it. */
  function Choose(book: Book, c: Choice): (r: Result<Book>) {
    if c.target.connectionId !in book.connections then Err("workspace_connection_not_found")
    else if c.listed && c.target !in book.entries then Err("workspace_target_not_found")
    else if c.target in book.entries && book.entries[c.target].supersededBy.Some? then Err("workspace_target_superseded")
    else Ok(Book(book.connections, book.entries[c.target := Entry(None, c.organization, c.room)], Some(c.target)))
  }

  /** The winners' choices, applied one after the other. */
  function Replay(book: Book, commits: seq<Commit>): (r: Result<Book>) {
    if commits == [] then Ok(book)
    else
      var before := Replay(book, commits[..|commits| - 1]);
      if before.Err? then before else Choose(before.value, commits[|commits| - 1].choice)
  }

  // ----- the atomic sections -----------------------------------------------

  predicate Newest(s: State, g: nat) { g + 1 == |s.stages| }

  function StageAfterAnswer(s: State, stage: Stage, a: Authorization, newest: bool): (r: Stage)
    requires stage.Authorizing?
  {
    match a
    case IdentityRequired => Rejected("workspace_identity_required")
    case Offline => Rejected("workspace_selection_unavailable")
    case Denied => Rejected("workspace_selection_denied")
    case Authorized(organization, room) =>
      if stage.wanted.Some? && organization.Some? && stage.wanted != organization then
        Rejected("workspace_selection_denied")
      else if !newest then Overtaken
      else
        var choice := Choice(stage.target, stage.listed, if organization.Some? then organization else stage.wanted, room);
        match Choose(s.memory, choice)
        case Err(code) => Rejected(code)
        case Ok(next) => Queued(choice, next)
  }

  predicate Enabled(s: State, e: Event) {
    match e
    case Begin(_, _) => true
    case Answer(g, _) => g < |s.stages| && s.stages[g].Authorizing?
    case TakeTurn => s.chain != [] && s.chain[0] < |s.stages| && s.stages[s.chain[0]].Queued?
    case SaveEnds(_) => s.chain != [] && s.chain[0] < |s.stages| && s.stages[s.chain[0]].Saving?
    case Resume => s.chain != [] && s.chain[0] < |s.stages| && s.stages[s.chain[0]].Landed?
  }

  function Step(s: State, e: Event): State
    requires Enabled(s, e)
  {
    match e
    case Begin(target, wanted) =>
      s.(stages := s.stages + [if target.connectionId in s.memory.connections
                               then Authorizing(target, wanted, target in s.memory.entries)
                               else Rejected("workspace_connection_not_found")])
    case Answer(g, a) =>
      var stage := StageAfterAnswer(s, s.stages[g], a, Newest(s, g));
      s.(stages := s.stages[g := stage], chain := if stage.Queued? then s.chain + [g] else s.chain)
    case TakeTurn =>
      var g := s.chain[0];
      var stage := s.stages[g];
      if Newest(s, g) then s.(stages := s.stages[g := Saving(stage.choice, stage.next)])
      else s.(stages := s.stages[g := Overtaken], chain := s.chain[1..])
    case SaveEnds(written) =>
      var g := s.chain[0];
      var stage := s.stages[g];
      if written then s.(disk := stage.next, stages := s.stages[g := Landed(stage.choice, stage.next)])
      else s.(stages := s.stages[g := Rejected("workspace_connection_registry_save_failed")], chain := s.chain[1..])
    case Resume =>
      var g := s.chain[0];
      var stage := s.stages[g];
      if Newest(s, g) then
        s.(memory := stage.next, active := Some(stage.choice.target),
           stages := s.stages[g := Won(stage.choice)], chain := s.chain[1..],
           commits := s.commits + [Commit(g, stage.choice)])
      else s.(stages := s.stages[g := Abandoned(stage.choice)], chain := s.chain[1..])
  }

  /** Those of the events, in order, that can run when their turn comes. */
  function Runnable(s: State, events: seq<Event>): seq<Event>
    decreases |events|
  {
    if events == [] then []
    else if Enabled(s, events[0]) then [events[0]] + Runnable(Step(s, events[0]), events[1..])
    else Runnable(s, events[1..])
  }

  ghost predicate IsRun(s: State, events: seq<Event>, end: State)
    decreases |events|
  {
    if events == [] then s == end
    else Enabled(s, events[0]) && IsRun(Step(s, events[0]), events[1..], end)
  }

  // ----- the invariant -----------------------------------------------------

  predicate InChain(stage: Stage) { stage.Queued? || stage.Saving? || stage.Landed? }

  /** The chain is in generation order, and only its head is past its turn. */
  ghost predicate ChainOrdered(s: State) {
    && (forall i | 0 <= i < |s.chain| :: s.chain[i] < |s.stages| && InChain(s.stages[s.chain[i]]))
    && (forall i, j | 0 <= i < j < |s.chain| :: s.chain[i] < s.chain[j])
    && (forall i | 1 <= i < |s.chain| :: s.stages[s.chain[i]].Queued?)
  }

  /** Commits happened in generation order, and memory is what they make of the first registry. */
  ghost predicate CommitsOrdered(s: State, first: State) {
    && (forall i | 0 <= i < |s.commits| ::
          s.commits[i].generation < |s.stages| && s.stages[s.commits[i].generation] == Won(s.commits[i].choice))
    && (forall i, j | 0 <= i < j < |s.commits| :: s.commits[i].generation < s.commits[j].generation)
    && Replay(first.memory, s.commits) == Ok(s.memory)
    && s.active == if s.commits == [] then first.active else Some(s.commits[|s.commits| - 1].choice.target)
  }

  /** The registry has the choice's target selected, exactly as it was authorized. */
  predicate Selects(book: Book, c: Choice) {
    && book.active == Some(c.target)
    && c.target in book.entries && book.entries[c.target] == Entry(None, c.organization, c.room)
  }

  /** The newest activation: what it will write was computed from the registry it will replace. */
  ghost predicate NewestOwns(s: State) {
    s.stages != [] ==>
      var stage := s.stages[|s.stages| - 1];
      && (InChain(stage) ==> s.chain != [] && Newest(s, s.chain[|s.chain| - 1])
                             && Choose(s.memory, stage.choice) == Ok(stage.next))
      && (stage.Landed? ==> s.disk == stage.next)
      && (stage.Won? ==> s.disk == s.memory && s.active == Some(stage.choice.target) && s.chain == []
                         && Selects(s.memory, stage.choice))
  }

  /** Everything on its way through the chain is in the chain. */
  ghost predicate ChainComplete(s: State) {
    forall g | 0 <= g < |s.stages| && InChain(s.stages[g]) :: g in s.chain
  }

  /** Everything in the chain was computed from the registry that memory holds now. */
  ghost predicate ChainComputed(s: State) {
    forall i | 0 <= i < |s.chain| :: Prepared(s.memory, s.stages, s.chain[i])
  }

  predicate Prepared(memory: Book, stages: seq<Stage>, g: nat) {
    g < |stages| && InChain(stages[g]) && Choose(memory, stages[g].choice) == Ok(stages[g].next)
  }

  /** Whoever has left the chain after a save is older than everybody in it. */
  ghost predicate WrittenFirst(s: State) {
    forall g, i | 0 <= g < |s.stages| && (s.stages[g].Won? || s.stages[g].Abandoned?) && 0 <= i < |s.chain| :: g < s.chain[i]
  }

  /** The activation wrote the file. */
  predicate Wrote(stage: Stage) { stage.Landed? || stage.Won? || stage.Abandoned? }

  /** The choice by which the disk is ahead of memory: the newest write, unless it won. */
  function Ahead(stages: seq<Stage>): Option<Choice> {
    if stages == [] then None
    else
      var newest := stages[|stages| - 1];
      if newest.Won? then None
      else if Wrote(newest) then Some(newest.choice)
      else Ahead(stages[..|stages| - 1])
  }

  /** The disk is what that choice makes of memory. */
  predicate DiskExact(s: State) {
    match Ahead(s.stages)
    case None => s.disk == s.memory
    case Some(choice) => Choose(s.memory, choice) == Ok(s.disk)
  }

  ghost predicate DiskExplained(s: State) {
    ChainComplete(s) && ChainComputed(s) && WrittenFirst(s) && DiskExact(s)
  }

  ghost predicate Valid(s: State, first: State) {
    ChainOrdered(s) && CommitsOrdered(s, first) && NewestOwns(s) && DiskExplained(s)
  }

  lemma ReplayExtends(book: Book, commits: seq<Commit>, c: Commit)
    ensures Replay(book, commits + [c]) ==
              if Replay(book, commits).Err? then Replay(book, commits) else Choose(Replay(book, commits).value, c.choice)
  {
    assert (commits + [c])[..|commits|] == commits;
  }

  /** Whoever joins the chain is the newest, so the chain stays in order. */
  lemma JoiningKeepsOrder(s: State, g: nat, a: Authorization)
    requires ChainOrdered(s) && Enabled(s, Answer(g, a))
    ensures ChainOrdered(Step(s, Answer(g, a)))
  {
    var t, stage := Step(s, Answer(g, a)), StageAfterAnswer(s, s.stages[g], a, Newest(s, g));
    assert forall i | 0 <= i < |s.chain| :: s.chain[i] != g && t.stages[s.chain[i]] == s.stages[s.chain[i]];
    if stage.Queued? {
      assert Newest(s, g) && t.chain == s.chain + [g];
      assert forall i | 0 <= i < |s.chain| :: t.chain[i] == s.chain[i] < g;
    } else {
      assert t.chain == s.chain;
    }
  }

  lemma LeavingKeepsOrder(s: State, e: Event)
    requires ChainOrdered(s) && Enabled(s, e) && !e.Begin? && !e.Answer?
    ensures ChainOrdered(Step(s, e))
  {
    var t := Step(s, e);
    assert t.chain == s.chain || t.chain == s.chain[1..];
    assert forall i | 1 <= i < |s.chain| :: t.stages[s.chain[i]] == s.stages[s.chain[i]];
  }

  /** No section but a winner's commit touches the stage of an earlier winner. */
  lemma WinnersStay(s: State, e: Event, g: nat)
    requires ChainOrdered(s) && Enabled(s, e) && g < |s.stages| && s.stages[g].Won?
    ensures Step(s, e).stages[g] == s.stages[g]
  {
  }

  lemma CommitsStay(s: State, first: State, e: Event)
    requires ChainOrdered(s) && CommitsOrdered(s, first) && Enabled(s, e) && Step(s, e).commits == s.commits
    ensures CommitsOrdered(Step(s, e), first)
  {
    var t := Step(s, e);
    assert |t.stages| >= |s.stages| && t.memory == s.memory && t.active == s.active;
    forall i | 0 <= i < |s.commits|
      ensures t.stages[s.commits[i].generation] == s.stages[s.commits[i].generation]
    {
      WinnersStay(s, e, s.commits[i].generation);
    }
  }

  /** The winner was the newest, so its registry is the last one with its choice applied. */
  lemma WinnerIsAppended(s: State, first: State)
    requires ChainOrdered(s) && CommitsOrdered(s, first) && NewestOwns(s) && Enabled(s, Resume) && Newest(s, s.chain[0])
    ensures CommitsOrdered(Step(s, Resume), first)
  {
    var t, g := Step(s, Resume), s.chain[0];
    var c := Commit(g, s.stages[g].choice);
    ReplayExtends(first.memory, s.commits, c);
    assert t.commits == s.commits + [c] && t.stages[g] == Won(c.choice);
    assert |s.chain| == 1 && Choose(s.memory, c.choice) == Ok(t.memory);
    assert forall i | 0 <= i < |s.commits| ::
        t.commits[i] == s.commits[i] && s.commits[i].generation < g
        && t.stages[s.commits[i].generation] == s.stages[s.commits[i].generation];
  }

  lemma NewestOwnsItsBeginning(s: State, target: Target, wanted: Option<string>)
    ensures NewestOwns(Step(s, Begin(target, wanted)))
  {
    var t := Step(s, Begin(target, wanted));
    assert !InChain(t.stages[|t.stages| - 1]) && !t.stages[|t.stages| - 1].Won?;
  }

  lemma NewestOwnsItsAnswer(s: State, g: nat, a: Authorization)
    requires NewestOwns(s) && Enabled(s, Answer(g, a))
    ensures NewestOwns(Step(s, Answer(g, a)))
  {
    var t, stage := Step(s, Answer(g, a)), StageAfterAnswer(s, s.stages[g], a, Newest(s, g));
    if Newest(s, g) {
      assert t.stages[|t.stages| - 1] == stage && !stage.Landed? && !stage.Won?;
      if stage.Queued? {
        assert Choose(s.memory, stage.choice) == Ok(stage.next);
      }
    } else {
      assert t.stages[|t.stages| - 1] == s.stages[|s.stages| - 1] && !stage.Queued?;
      assert t.chain == s.chain && t.memory == s.memory;
    }
  }

  lemma NewestOwnsItsTurn(s: State, e: Event)
    requires ChainOrdered(s) && NewestOwns(s) && Enabled(s, e) && (e.TakeTurn? || e.SaveEnds?)
    ensures NewestOwns(Step(s, e))
  {
    var g, t := s.chain[0], Step(s, e);
    if Newest(s, g) {
      assert |s.chain| == 1;
    } else {
      assert t.stages[|t.stages| - 1] == s.stages[|s.stages| - 1];
    }
  }

  lemma NewestOwnsItsCommit(s: State)
    requires ChainOrdered(s) && NewestOwns(s) && Enabled(s, Resume)
    ensures NewestOwns(Step(s, Resume))
  {
    var g, t := s.chain[0], Step(s, Resume);
    if Newest(s, g) {
      assert |s.chain| == 1;
    } else {
      assert t.stages[|t.stages| - 1] == s.stages[|s.stages| - 1];
    }
  }

  /** The newest write decides. */
  lemma {:induction false} AheadAt(stages: seq<Stage>, g: nat)
    requires g < |stages| && Wrote(stages[g]) && forall h | g < h < |stages| :: !Wrote(stages[h])
    ensures Ahead(stages) == if stages[g].Won? then None else Some(stages[g].choice)
  {
    if g < |stages| - 1 {
      AheadAt(stages[..|stages| - 1], g);
    }
  }

  lemma {:induction false} AheadNowhere(stages: seq<Stage>)
    requires forall h | 0 <= h < |stages| :: !Wrote(stages[h])
    ensures Ahead(stages).None?
  {
    if stages != [] {
      AheadNowhere(stages[..|stages| - 1]);
    }
  }

  /** A section that neither makes nor unmakes a write leaves the newest write alone. */
  lemma {:induction false} AheadStays(stages: seq<Stage>, g: nat, stage: Stage)
    requires g < |stages| && !Wrote(stages[g]) && !Wrote(stage)
    ensures Ahead(stages[g := stage]) == Ahead(stages)
  {
    var front := stages[..|stages| - 1];
    if g == |stages| - 1 {
      assert stages[g := stage][..g] == front;
    } else {
      AheadStays(front, g, stage);
      assert stages[g := stage][..|stages| - 1] == front[g := stage];
    }
  }

  /** Only the head of the chain can have been written, so nothing newer has. */
  lemma HeadIsNewestWrite(s: State, g: nat)
    requires ChainOrdered(s) && ChainComplete(s) && WrittenFirst(s) && s.chain != []
    requires s.chain[0] < g < |s.stages|
    ensures !Wrote(s.stages[g])
  {
    assert forall i | 0 <= i < |s.chain| && s.chain[i] == g :: i > 0;
  }

  /** Answering leaves everybody else where they stand. */
  lemma AnswerKeepsOthers(s: State, g: nat, a: Authorization)
    requires ChainOrdered(s) && ChainComputed(s) && Enabled(s, Answer(g, a))
    ensures var t := Step(s, Answer(g, a));
            && s.chain <= t.chain
            && forall i | 0 <= i < |s.chain| :: s.chain[i] != g && Prepared(t.memory, t.stages, s.chain[i])
  {
    assert forall i | 0 <= i < |s.chain| :: Prepared(s.memory, s.stages, s.chain[i]);
  }

  lemma AnswerKeepsWritten(s: State, g: nat, a: Authorization)
    requires ChainOrdered(s) && WrittenFirst(s) && Enabled(s, Answer(g, a))
    ensures WrittenFirst(Step(s, Answer(g, a)))
  {
    var t, stage := Step(s, Answer(g, a)), StageAfterAnswer(s, s.stages[g], a, Newest(s, g));
    assert !Wrote(stage) && (stage.Queued? ==> Newest(s, g));
    assert forall h | 0 <= h < |t.stages| && h != g :: t.stages[h] == s.stages[h];
  }

  lemma AnswerKeepsDisk(s: State, g: nat, a: Authorization)
    requires ChainOrdered(s) && DiskExplained(s) && Enabled(s, Answer(g, a))
    ensures DiskExplained(Step(s, Answer(g, a)))
  {
    var t, stage := Step(s, Answer(g, a)), StageAfterAnswer(s, s.stages[g], a, Newest(s, g));
    AheadStays(s.stages, g, stage);
    AnswerKeepsOthers(s, g, a);
    AnswerKeepsWritten(s, g, a);
    if stage.Queued? {
      assert t.chain[|s.chain|] == g && Prepared(t.memory, t.stages, g);
    }
  }

  /** The head of the chain moves on alone, and leaves the chain or stays in it. */
  lemma HeadMovesAlone(s: State, e: Event)
    requires ChainOrdered(s) && Enabled(s, e) && !e.Begin? && !e.Answer?
    ensures var t, g := Step(s, e), s.chain[0];
            && |t.stages| == |s.stages| && (forall h | 0 <= h < |s.stages| && h != g :: t.stages[h] == s.stages[h])
            && t.chain == if InChain(t.stages[g]) then s.chain else s.chain[1..]
  {
  }

  lemma HeadKeepsComplete(s: State, e: Event)
    requires ChainOrdered(s) && ChainComplete(s) && Enabled(s, e) && !e.Begin? && !e.Answer?
    ensures ChainComplete(Step(s, e))
  {
    HeadMovesAlone(s, e);
    var t := Step(s, e);
    forall h | 0 <= h < |t.stages| && InChain(t.stages[h]) ensures h in t.chain {
      var i :| 0 <= i < |s.chain| && s.chain[i] == h;
      if !InChain(t.stages[s.chain[0]]) {
        assert h != s.chain[0];
        assert t.chain[i - 1] == s.chain[1..][i - 1] == h;
      }
    }
  }

  /** A winner has nobody behind it, so memory changes under nobody. */
  lemma HeadKeepsComputed(s: State, e: Event)
    requires ChainOrdered(s) && ChainComputed(s) && Enabled(s, e) && !e.Begin? && !e.Answer?
    ensures ChainComputed(Step(s, e))
  {
    HeadMovesAlone(s, e);
    var t := Step(s, e);
    assert Prepared(s.memory, s.stages, s.chain[0]);
    if e.Resume? && Newest(s, s.chain[0]) {
      var last := s.chain[|s.chain| - 1];
      assert s.chain[0] <= last < |s.stages|;
    } else {
      var g := s.chain[0];
      assert t.memory == s.memory && (InChain(t.stages[g]) ==> Prepared(s.memory, t.stages, g));
      forall i | 0 <= i < |t.chain| ensures Prepared(t.memory, t.stages, t.chain[i]) {
        var k := if InChain(t.stages[g]) then i else i + 1;
        assert t.chain[i] == s.chain[k] && Prepared(s.memory, s.stages, s.chain[k]);
      }
    }
  }

  lemma HeadKeepsWritten(s: State, e: Event)
    requires ChainOrdered(s) && WrittenFirst(s) && Enabled(s, e) && !e.Begin? && !e.Answer?
    ensures WrittenFirst(Step(s, e))
  {
    HeadMovesAlone(s, e);
  }

  lemma TurnKeepsDisk(s: State, e: Event)
    requires ChainOrdered(s) && DiskExplained(s) && Enabled(s, e) && (e.TakeTurn? || e == SaveEnds(false))
    ensures DiskExplained(Step(s, e))
  {
    var t, g := Step(s, e), s.chain[0];
    AheadStays(s.stages, g, t.stages[g]);
    HeadKeepsComplete(s, e);
    HeadKeepsComputed(s, e);
    HeadKeepsWritten(s, e);
  }

  lemma SaveKeepsDisk(s: State)
    requires ChainOrdered(s) && DiskExplained(s) && Enabled(s, SaveEnds(true))
    ensures DiskExplained(Step(s, SaveEnds(true)))
  {
    var t, g := Step(s, SaveEnds(true)), s.chain[0];
    forall h | g < h < |t.stages| ensures !Wrote(t.stages[h]) {
      HeadIsNewestWrite(s, h);
    }
    AheadAt(t.stages, g);
    assert Prepared(s.memory, s.stages, g);
    HeadKeepsComplete(s, SaveEnds(true));
    HeadKeepsComputed(s, SaveEnds(true));
    HeadKeepsWritten(s, SaveEnds(true));
  }

  lemma ResumeKeepsDisk(s: State)
    requires ChainOrdered(s) && DiskExplained(s) && Enabled(s, Resume)
    ensures DiskExplained(Step(s, Resume))
  {
    var t, g := Step(s, Resume), s.chain[0];
    forall h | g < h < |t.stages| ensures !Wrote(t.stages[h]) {
      HeadIsNewestWrite(s, h);
    }
    AheadAt(s.stages, g);
    AheadAt(t.stages, g);
    assert Prepared(s.memory, s.stages, g);
    HeadKeepsComplete(s, Resume);
    HeadKeepsComputed(s, Resume);
    HeadKeepsWritten(s, Resume);
  }

  lemma DiskStaysExplained(s: State, e: Event)
    requires ChainOrdered(s) && DiskExplained(s) && Enabled(s, e)
    ensures DiskExplained(Step(s, e))
  {
    match e {
      case Begin(target, wanted) =>
        var t := Step(s, e);
        assert t.stages[..|s.stages|] == s.stages;
        assert forall i | 0 <= i < |s.chain| :: Prepared(s.memory, s.stages, s.chain[i]);
      case Answer(g, a) => AnswerKeepsDisk(s, g, a);
      case Resume => ResumeKeepsDisk(s);
      case SaveEnds(written) => if written { SaveKeepsDisk(s); } else { TurnKeepsDisk(s, e); }
      case TakeTurn => TurnKeepsDisk(s, e);
    }
  }

  lemma StepKeepsValid(s: State, first: State, e: Event)
    requires Valid(s, first) && Enabled(s, e)
    ensures Valid(Step(s, e), first)
  {
    match e {
      case Begin(target, wanted) => NewestOwnsItsBeginning(s, target, wanted);
      case Answer(g, a) => JoiningKeepsOrder(s, g, a); NewestOwnsItsAnswer(s, g, a);
      case Resume => LeavingKeepsOrder(s, e); NewestOwnsItsCommit(s);
      case _ => LeavingKeepsOrder(s, e); NewestOwnsItsTurn(s, e);
    }
    if Step(s, e).commits == s.commits {
      CommitsStay(s, first, e);
    } else {
      WinnerIsAppended(s, first);
    }
    DiskStaysExplained(s, e);
  }

  // ----- the results ---------------------------------------------------------

  /** A Desktop that has not activated anything since it started. */
  predicate Initial(s: State) {
    s.memory == s.disk && s.stages == [] && s.chain == [] && s.commits == []
  }

  lemma {:induction false} RunsKeepValid(s: State, first: State, events: seq<Event>, end: State)
    requires Valid(s, first) && IsRun(s, events, end)
    ensures Valid(end, first)
    decreases |events|
  {
    if events != [] {
      StepKeepsValid(s, first, events[0]);
      RunsKeepValid(Step(s, events[0]), first, events[1..], end);
    }
  }

  /**
    In every interleaving: commits happen in strictly increasing generation
    order; the registry in memory is what the winners' choices make of the
    first one, applied one after the other; the active target is the last
    winner's; and an activation that was rejected or overtaken is no winner.
   */
  lemma WinnersApplySequentially(first: State, events: seq<Event>, end: State)
    requires Initial(first) && IsRun(first, events, end)
    ensures forall i, j | 0 <= i < j < |end.commits| :: end.commits[i].generation < end.commits[j].generation
    ensures Replay(first.memory, end.commits) == Ok(end.memory)
    ensures end.active == if end.commits == [] then first.active else Some(end.commits[|end.commits| - 1].choice.target)
    ensures forall i | 0 <= i < |end.commits| ::
              end.commits[i].generation < |end.stages| && end.stages[end.commits[i].generation] == Won(end.commits[i].choice)
  {
    RunsKeepValid(first, first, events, end);
  }

  /** A section that rejects or overtakes an activation changes neither registry nor target, and a failed save not even the disk. */
  lemma LosersChangeNothing(s: State, first: State, e: Event, g: nat)
    requires Valid(s, first) && Enabled(s, e) && g < |s.stages|
    requires var stage := Step(s, e).stages[g]; stage != s.stages[g] && (stage.Rejected? || stage.Overtaken?)
    ensures Step(s, e).memory == s.memory && Step(s, e).active == s.active && Step(s, e).disk == s.disk
    ensures forall i | 0 <= i < |Step(s, e).commits| :: Step(s, e).commits[i].generation != g
  {
    StepKeepsValid(s, first, e);
  }

  /** If the newest activation succeeded, disk, memory and active target are all its own, and nothing is pending. */
  lemma NewestSuccessOwnsAll(first: State, events: seq<Event>, end: State)
    requires Initial(first) && IsRun(first, events, end)
    requires end.stages != [] && end.stages[|end.stages| - 1].Won?
    ensures var choice := end.stages[|end.stages| - 1].choice;
            && end.disk == end.memory && Selects(end.memory, choice) && end.active == Some(choice.target)
    ensures end.chain == []
  {
    RunsKeepValid(first, first, events, end);
  }

  /**
    Disk and memory at every moment of every run. The disk is ahead by exactly one
    choice, the one of the newest activation that wrote the file, unless that
    one won; so the two agree iff there is no such activation or its choice
    changes nothing.
   */
  lemma DiskIsExact(first: State, events: seq<Event>, end: State)
    requires Initial(first) && IsRun(first, events, end)
    ensures DiskExact(end)
    ensures end.disk == end.memory <==> Ahead(end.stages).None? || Choose(end.memory, Ahead(end.stages).value) == Ok(end.memory)
  {
    RunsKeepValid(first, first, events, end);
  }

  /** What is ahead, without recursion: the newest activation that wrote the file, if it has not won. */
  lemma AheadIsNewestWrite(stages: seq<Stage>, g: nat)
    requires g < |stages| && forall h | g < h < |stages| :: !Wrote(stages[h])
    ensures Wrote(stages[g]) && !stages[g].Won? ==> Ahead(stages) == Some(stages[g].choice)
    ensures stages[g].Won? || (forall h | 0 <= h <= g :: !Wrote(stages[h])) ==> Ahead(stages).None?
  {
    if Wrote(stages[g]) {
      AheadAt(stages, g);
    } else if forall h | 0 <= h <= g :: !Wrote(stages[h]) {
      AheadNowhere(stages);
    }
  }

  /** With the chain empty, only an activation abandoned after its save can have left the disk ahead. */
  lemma DiskAheadIsAbandoned(first: State, events: seq<Event>, end: State)
    requires Initial(first) && IsRun(first, events, end) && end.chain == []
    requires forall g | 0 <= g < |end.stages| && end.stages[g].Abandoned? ::
               exists h :: g < h < |end.stages| && end.stages[h].Won?
    ensures end.disk == end.memory
  {
    RunsKeepValid(first, first, events, end);
    LastWriterWon(end.stages);
  }

  lemma {:induction false} LastWriterWon(stages: seq<Stage>)
    requires forall g | 0 <= g < |stages| && stages[g].Abandoned? :: exists h :: g < h < |stages| && stages[h].Won?
    requires forall g | 0 <= g < |stages| :: !stages[g].Landed?
    ensures Ahead(stages).None?
  {
    if stages != [] && !stages[|stages| - 1].Won? {
      LastWriterWon(stages[..|stages| - 1]);
    }
  }

  /** And then it can: the overtaking activation was rejected, so nothing repairs the disk. */
  lemma DiskCanStayAhead() returns (first: State, events: seq<Event>, end: State)
    ensures Initial(first) && IsRun(first, events, end) && end.chain == [] && end.disk != end.memory
  {
    var a := Target("server", "a");
    var book := Book({"server"}, map[], None);
    first := State(book, book, None, [], [], []);
    var e0, e1, e4 := Begin(a, None), Answer(0, Authorized(None, None)), Begin(Target("unknown", "b"), None);
    events := [e0, e1, TakeTurn, SaveEnds(true), e4, Resume];
    var s1 := Step(first, e0);
    var s2 := Step(s1, e1);
    var s3 := Step(s2, TakeTurn);
    var s4 := Step(s3, SaveEnds(true));
    var s5 := Step(s4, e4);
    end := Step(s5, Resume);
    assert IsRun(s5, [Resume], end) by { assert [Resume][1..] == []; }
    assert IsRun(s4, [e4, Resume], end) by { assert [e4, Resume][1..] == [Resume]; }
    assert IsRun(s3, [SaveEnds(true), e4, Resume], end) by { assert [SaveEnds(true), e4, Resume][1..] == [e4, Resume]; }
    assert IsRun(s2, [TakeTurn] + [SaveEnds(true), e4, Resume], end);
    assert events[1..][1..] == [TakeTurn] + [SaveEnds(true), e4, Resume];
    assert IsRun(s1, events[1..], end);
    assert end.disk.active == Some(a);
  }

  // ----- what a registry keeps -------------------------------------------------

  /** `after` is `before` with the choice's target listed, as it was authorized, and selected; nothing else is touched. */
  predicate SelectedOnly(before: Book, after: Book, c: Choice) {
    && after.connections == before.connections && after.entries.Keys == before.entries.Keys + {c.target}
    && (forall t | t in before.entries && t != c.target :: after.entries[t] == before.entries[t])
    && Selects(after, c)
  }

  /** The target's connection is listed, the target is not superseded, and it did not disappear since it was seen. */
  predicate Admits(book: Book, c: Choice) {
    && c.target.connectionId in book.connections
    && (c.target in book.entries ==> book.entries[c.target].supersededBy.None?)
    && (c.listed ==> c.target in book.entries)
  }

  lemma ChoosesExactly(book: Book, c: Choice)
    ensures Choose(book, c).Ok? <==> Admits(book, c)
    ensures Choose(book, c).Ok? ==> SelectedOnly(book, Choose(book, c).value, c)
  {
  }

  /** The last winner that chose a target, if any did. */
  predicate LastToChoose(commits: seq<Commit>, i: nat, t: Target) {
    i < |commits| && commits[i].choice.target == t && forall j | i < j < |commits| :: commits[j].choice.target != t
  }

  predicate Chosen(commits: seq<Commit>, t: Target) {
    exists i :: 0 <= i < |commits| && commits[i].choice.target == t
  }

  /** What the winners have made of the first registry, target by target. */
  ghost predicate WrittenBy(first: Book, commits: seq<Commit>, book: Book) {
    && book.connections == first.connections
    && (forall t :: t in book.entries <==> t in first.entries || Chosen(commits, t))
    && (forall t | t in first.entries && !Chosen(commits, t) :: book.entries[t] == first.entries[t])
    && (forall i: nat, t | LastToChoose(commits, i, t) ::
          t in book.entries && book.entries[t] == Entry(None, commits[i].choice.organization, commits[i].choice.room))
    && book.active == if commits == [] then first.active else Some(commits[|commits| - 1].choice.target)
  }

  lemma {:induction false} ReplayWrites(first: Book, commits: seq<Commit>)
    requires Replay(first, commits).Ok?
    ensures WrittenBy(first, commits, Replay(first, commits).value)
    decreases |commits|
  {
    if commits != [] {
      var front, c := commits[..|commits| - 1], commits[|commits| - 1].choice;
      ReplayWrites(first, front);
      var before, after := Replay(first, front).value, Replay(first, commits).value;
      ChoosesExactly(before, c);
      forall t ensures Chosen(commits, t) <==> Chosen(front, t) || t == c.target {
        if Chosen(front, t) {
          var i :| 0 <= i < |front| && front[i].choice.target == t;
          assert commits[i].choice.target == t;
        }
        if Chosen(commits, t) && t != c.target {
          var i :| 0 <= i < |commits| && commits[i].choice.target == t;
          assert front[i].choice.target == t;
        }
      }
      forall i: nat, t | LastToChoose(commits, i, t)
        ensures t in after.entries && after.entries[t] == Entry(None, commits[i].choice.organization, commits[i].choice.room)
      {
        if t != c.target {
          assert forall j | i < j < |front| :: front[j] == commits[j];
          assert LastToChoose(front, i, t);
        }
      }
    }
  }

  /** Winners write their own targets and nothing else; nobody else writes at all. */
  lemma WinnersWriteTheirTargets(first: State, events: seq<Event>, end: State)
    requires Initial(first) && IsRun(first, events, end)
    ensures WrittenBy(first.memory, end.commits, end.memory)
  {
    RunsKeepValid(first, first, events, end);
    ReplayWrites(first.memory, end.commits);
  }

  // ----- who may win ------------------------------------------------------------

  /** The begin events, in order: the one of generation g stands at g. */
  function Begun(events: seq<Event>): seq<Event> {
    if events == [] then []
    else
      var last := events[|events| - 1];
      Begun(events[..|events| - 1]) + (if last.Begin? then [last] else [])
  }

  /** The event authorizes activation `g` for this organization and room, as far as an organization was asked for. */
  predicate Grants(e: Event, g: nat, wanted: Option<string>, c: Choice) {
    && e.Answer? && e.generation == g && e.authorization.Authorized?
    && (wanted.Some? && e.authorization.organization.Some? ==> e.authorization.organization == wanted)
    && c.organization == (if e.authorization.organization.Some? then e.authorization.organization else wanted)
    && c.room == e.authorization.room
  }

  predicate HasChoice(stage: Stage) { InChain(stage) || stage.Won? || stage.Abandoned? }

  /** Activation `g` began for the target of `c`, and was authorized for what `c` says. */
  ghost predicate Authorised(events: seq<Event>, g: nat, c: Choice) {
    && g < |Begun(events)| && Begun(events)[g].Begin? && Begun(events)[g].target == c.target
    && exists k :: 0 <= k < |events| && Grants(events[k], g, Begun(events)[g].wanted, c)
  }

  ghost predicate Pedigree(s: State, past: seq<Event>) {
    && |s.stages| == |Begun(past)|
    && (forall g | 0 <= g < |s.stages| && s.stages[g].Authorizing? ::
          Begun(past)[g] == Begin(s.stages[g].target, s.stages[g].wanted))
    && (forall g | 0 <= g < |s.stages| && HasChoice(s.stages[g]) :: Authorised(past, g, s.stages[g].choice))
  }

  lemma BegunExtends(past: seq<Event>, e: Event)
    ensures Begun(past + [e]) == Begun(past) + (if e.Begin? then [e] else [])
  {
    assert (past + [e])[..|past|] == past;
  }

  lemma AuthorisedStays(past: seq<Event>, e: Event, g: nat, c: Choice)
    requires Authorised(past, g, c)
    ensures Authorised(past + [e], g, c)
  {
    BegunExtends(past, e);
    var k :| 0 <= k < |past| && Grants(past[k], g, Begun(past)[g].wanted, c);
    assert (past + [e])[k] == past[k];
  }

  /** A section changes one stage at most, and gives a choice only to who is authorized. */
  lemma ChoicesComeFromAnswers(s: State, e: Event, g: nat)
    requires Enabled(s, e) && g < |Step(s, e).stages| && HasChoice(Step(s, e).stages[g])
    ensures g < |s.stages|
    ensures (HasChoice(s.stages[g]) && Step(s, e).stages[g].choice == s.stages[g].choice)
            || (&& s.stages[g].Authorizing? && Grants(e, g, s.stages[g].wanted, Step(s, e).stages[g].choice)
                && Step(s, e).stages[g].choice.target == s.stages[g].target)
  {
  }

  lemma AuthorizingWasThere(s: State, e: Event, g: nat)
    requires Enabled(s, e) && g < |Step(s, e).stages| && Step(s, e).stages[g].Authorizing?
    ensures if g < |s.stages| then s.stages[g] == Step(s, e).stages[g]
            else e == Begin(Step(s, e).stages[g].target, Step(s, e).stages[g].wanted) && g == |s.stages|
  {
  }

  lemma StepKeepsPedigree(s: State, past: seq<Event>, e: Event)
    requires Pedigree(s, past) && Enabled(s, e)
    ensures Pedigree(Step(s, e), past + [e])
  {
    var t, now := Step(s, e), past + [e];
    BegunExtends(past, e);
    assert |t.stages| == |s.stages| + if e.Begin? then 1 else 0;
    forall g | 0 <= g < |t.stages| && t.stages[g].Authorizing?
      ensures Begun(now)[g] == Begin(t.stages[g].target, t.stages[g].wanted)
    {
      AuthorizingWasThere(s, e, g);
    }
    forall g | 0 <= g < |t.stages| && HasChoice(t.stages[g])
      ensures Authorised(now, g, t.stages[g].choice)
    {
      ChoicesComeFromAnswers(s, e, g);
      if HasChoice(s.stages[g]) && t.stages[g].choice == s.stages[g].choice {
        AuthorisedStays(past, e, g, t.stages[g].choice);
      } else {
        assert now[|past|] == e;
      }
    }
  }

  lemma {:induction false} RunsKeepPedigree(s: State, past: seq<Event>, events: seq<Event>, end: State)
    requires Pedigree(s, past) && IsRun(s, events, end)
    ensures Pedigree(end, past + events)
    decreases |events|
  {
    if events == [] {
      assert past + events == past;
    } else {
      StepKeepsPedigree(s, past, events[0]);
      RunsKeepPedigree(Step(s, events[0]), past + [events[0]], events[1..], end);
      assert past + [events[0]] + events[1..] == past + events;
    }
  }

  /**
    Nothing is queued, saved or committed without an authorization: whatever
    activation has a choice began for that target, and an answer granted it
    exactly that organization and room, in agreement with what it asked for.
   */
  lemma ChoicesAreAuthorised(first: State, events: seq<Event>, end: State, g: nat)
    requires Initial(first) && IsRun(first, events, end)
    requires g < |end.stages| && HasChoice(end.stages[g])
    ensures Authorised(events, g, end.stages[g].choice)
  {
    RunsKeepPedigree(first, [], events, end);
    assert [] + events == events;
  }

  // ----- progress ----------------------------------------------------------------

  predicate NoBegin(events: seq<Event>) { forall i | 0 <= i < |events| :: !events[i].Begin? }

  predicate NoFailedSave(events: seq<Event>) { forall i | 0 <= i < |events| :: events[i] != SaveEnds(false) }

  /** The newest activation is on its way, or there, with this choice. */
  predicate NewestHas(s: State, c: Choice) {
    s.stages != [] && var stage := s.stages[|s.stages| - 1]; (InChain(stage) || stage.Won?) && stage.choice == c
  }

  lemma NewestMoves(s: State, e: Event, c: Choice)
    requires ChainOrdered(s) && Enabled(s, e) && !e.Begin? && e != SaveEnds(false) && NewestHas(s, c)
    ensures |Step(s, e).stages| == |s.stages| && NewestHas(Step(s, e), c)
  {
    if !e.Answer? {
      HeadMovesAlone(s, e);
    }
  }

  /** While nobody begins and no save fails, the newest activation moves on with its choice. */
  lemma {:induction false} NewestMovesOn(s: State, first: State, events: seq<Event>, end: State, c: Choice)
    requires Valid(s, first) && IsRun(s, events, end) && NoBegin(events) && NoFailedSave(events) && NewestHas(s, c)
    ensures |end.stages| == |s.stages| && NewestHas(end, c)
    decreases |events|
  {
    if events != [] {
      var e := events[0];
      assert !e.Begin? && e != SaveEnds(false);
      StepKeepsValid(s, first, e);
      NewestMoves(s, e, c);
      NewestMovesOn(Step(s, e), first, events[1..], end, c);
    }
  }

  /** While an activation waits for its answer nothing changes what it asked for, and the registry only gains targets. */
  lemma {:induction false} WaitingKeepsRequest(s: State, first: State, events: seq<Event>, end: State, g: nat)
    requires Valid(s, first) && IsRun(s, events, end) && NoBegin(events)
    requires g < |s.stages| && (g < |end.stages| ==> end.stages[g].Authorizing?)
    ensures |end.stages| == |s.stages| && end.stages[g] == s.stages[g]
    ensures end.memory.connections == s.memory.connections && s.memory.entries.Keys <= end.memory.entries.Keys
    decreases |events|
  {
    if events != [] {
      StepKeepsValid(s, first, events[0]);
      WaitingKeepsRequest(Step(s, events[0]), first, events[1..], end, g);
      AuthorizingWasThere(s, events[0], g);
      StepOnlyAdds(s, first, events[0]);
    }
  }

  lemma StepOnlyAdds(s: State, first: State, e: Event)
    requires Valid(s, first) && Enabled(s, e)
    ensures Step(s, e).memory.connections == s.memory.connections
    ensures s.memory.entries.Keys <= Step(s, e).memory.entries.Keys
  {
    if e.Resume? {
      assert Prepared(s.memory, s.stages, s.chain[0]);
      ChoosesExactly(s.memory, s.stages[s.chain[0]].choice);
    }
  }

  /**
    And who is authorized wins: an activation that began for a target of a listed
    connection, was granted what it asked for while the target was not
    superseded, and was not followed by another, owns memory, disk and active
    target once the chain has run empty without a failed save.
   */
  lemma AuthorizedNewestWins(first: State, before: seq<Event>, s0: State, target: Target, wanted: Option<string>,
                             middle: seq<Event>, s1: State, organization: Option<string>, room: Option<string>,
                             after: seq<Event>, end: State)
    requires Initial(first) && IsRun(first, before, s0)
    requires IsRun(Step(s0, Begin(target, wanted)), middle, s1) && NoBegin(middle)
    requires Enabled(s1, Answer(|s0.stages|, Authorized(organization, room)))
    requires IsRun(Step(s1, Answer(|s0.stages|, Authorized(organization, room))), after, end)
    requires NoBegin(after) && NoFailedSave(after) && end.chain == []
    requires target.connectionId in first.memory.connections
    requires target in s1.memory.entries ==> s1.memory.entries[target].supersededBy.None?
    requires wanted.Some? && organization.Some? ==> organization == wanted
    ensures |end.stages| == |s0.stages| + 1 && end.stages[|s0.stages|].Won? && end.active == Some(target)
    ensures end.memory == end.disk && end.memory.active == Some(target) && target in end.memory.entries
    ensures end.memory.entries[target] == Entry(None, if organization.Some? then organization else wanted, room)
  {
    var g, begun := |s0.stages|, Step(s0, Begin(target, wanted));
    var c := Choice(target, target in s0.memory.entries, if organization.Some? then organization else wanted, room);
    RunsKeepValid(first, first, before, s0);
    WinnersWriteTheirTargets(first, before, s0);
    StepKeepsValid(s0, first, Begin(target, wanted));
    RunsKeepValid(begun, first, middle, s1);
    WaitingKeepsRequest(begun, first, middle, s1, g);
    GrantedIsQueued(s1, first, g, target, wanted, c.listed, organization, room);
    NewestMovesOn(Step(s1, Answer(g, Authorized(organization, room))), first, after, end, c);
    RunsKeepValid(Step(s1, Answer(g, Authorized(organization, room))), first, after, end);
  }

  /** The newest activation joins the chain with what it is granted, if the registry admits it. */
  lemma GrantedIsQueued(s: State, first: State, g: nat, target: Target, wanted: Option<string>, listed: bool,
                        organization: Option<string>, room: Option<string>)
    requires Valid(s, first) && g + 1 == |s.stages| && s.stages[g] == Authorizing(target, wanted, listed)
    requires wanted.Some? && organization.Some? ==> organization == wanted
    requires Admits(s.memory, Choice(target, listed, if organization.Some? then organization else wanted, room))
    ensures var t := Step(s, Answer(g, Authorized(organization, room)));
            && Valid(t, first) && |t.stages| == |s.stages|
            && NewestHas(t, Choice(target, listed, if organization.Some? then organization else wanted, room))
  {
    ChoosesExactly(s.memory, Choice(target, listed, if organization.Some? then organization else wanted, room));
    StepKeepsValid(s, first, Answer(g, Authorized(organization, room)));
  }

  // ----- the process ---------------------------------------------------------

  /** The selection state of the Desktop process; each method is one atomic section. */
  class Selection {
    var memory: Book
    var disk: Book
    var active: Option<Target>
    var stages: seq<Stage>
    var chain: seq<nat>
    ghost var commits: seq<Commit>
    var selectionGeneration: nat
    var targetGeneration: nat

    ghost function Now(): State
      reads this
    {
      State(memory, disk, active, stages, chain, commits)
    }

    constructor (book: Book, target: Option<Target>)
      ensures Initial(Now()) && memory == book && active == target && selectionGeneration == targetGeneration == 0
    {
      memory, disk, active := book, book, target;
      stages, chain, commits := [], [], [];
      selectionGeneration, targetGeneration := 0, 0;
    }

    method BeginActivation(target: Target, wanted: Option<string>)
      modifies this
      ensures Now() == Step(old(Now()), Begin(target, wanted))
      ensures selectionGeneration == old(selectionGeneration) + 1
      ensures targetGeneration == old(targetGeneration) + if old(memory).active != Some(target) then 1 else 0
    {
      if memory.active != Some(target) {
        targetGeneration := targetGeneration + 1;
      }
      selectionGeneration := selectionGeneration + 1;
      if target.connectionId in memory.connections {
        stages := stages + [Authorizing(target, wanted, target in memory.entries)];
      } else {
        stages := stages + [Rejected("workspace_connection_not_found")];
      }
    }

    method ReceiveAuthorization(g: nat, a: Authorization)
      requires Enabled(Now(), Answer(g, a))
      modifies this
      ensures Now() == Step(old(Now()), Answer(g, a))
      ensures selectionGeneration == old(selectionGeneration) && targetGeneration == old(targetGeneration)
    {
      var begun := stages[g];
      var stage: Stage;
      match a {
        case IdentityRequired => stage := Rejected("workspace_identity_required");
        case Offline => stage := Rejected("workspace_selection_unavailable");
        case Denied => stage := Rejected("workspace_selection_denied");
        case Authorized(organization, room) =>
          if begun.wanted.Some? && organization.Some? && begun.wanted != organization {
            stage := Rejected("workspace_selection_denied");
          } else if g + 1 != |stages| {
            stage := Overtaken;
          } else {
            var choice := Choice(begun.target, begun.listed, if organization.Some? then organization else begun.wanted, room);
            var next := Choose(memory, choice);
            if next.Err? {
              stage := Rejected(next.code);
            } else {
              stage := Queued(choice, next.value);
              chain := chain + [g];
            }
          }
      }
      stages := stages[g := stage];
    }

    method StartCommit()
      requires Enabled(Now(), TakeTurn)
      modifies this
      ensures Now() == Step(old(Now()), TakeTurn)
      ensures selectionGeneration == old(selectionGeneration) && targetGeneration == old(targetGeneration)
    {
      var g := chain[0];
      if g + 1 != |stages| {
        stages, chain := stages[g := Overtaken], chain[1..];
      } else {
        stages := stages[g := Saving(stages[g].choice, stages[g].next)];
      }
    }

    method EndSave(written: bool)
      requires Enabled(Now(), SaveEnds(written))
      modifies this
      ensures Now() == Step(old(Now()), SaveEnds(written))
      ensures selectionGeneration == old(selectionGeneration) && targetGeneration == old(targetGeneration)
    {
      var g := chain[0];
      if written {
        disk := stages[g].next;
        stages := stages[g := Landed(stages[g].choice, stages[g].next)];
      } else {
        stages, chain := stages[g := Rejected("workspace_connection_registry_save_failed")], chain[1..];
      }
    }

    method FinishCommit()
      requires Enabled(Now(), Resume)
      modifies this
      ensures Now() == Step(old(Now()), Resume)
      ensures selectionGeneration == old(selectionGeneration) && targetGeneration == old(targetGeneration)
    {
      var g := chain[0];
      if g + 1 != |stages| {
        stages, chain := stages[g := Abandoned(stages[g].choice)], chain[1..];
      } else {
        memory := stages[g].next;
        active := Some(stages[g].choice.target);
        commits := commits + [Commit(g, stages[g].choice)];
        stages, chain := stages[g := Won(stages[g].choice)], chain[1..];
      }
    }

    method Take(e: Event)
      requires Enabled(Now(), e)
      modifies this
      ensures Now() == Step(old(Now()), e)
      ensures selectionGeneration - old(selectionGeneration) == |stages| - |old(stages)| == if e.Begin? then 1 else 0
      ensures old(targetGeneration) <= targetGeneration
    {
      match e
      case Begin(target, wanted) => BeginActivation(target, wanted);
      case Answer(g, a) => ReceiveAuthorization(g, a);
      case TakeTurn => StartCommit();
      case SaveEnds(written) => EndSave(written);
      case Resume => FinishCommit();
    }

    /** Any schedule of atomic sections is a run of the state machine; what cannot run at its moment is passed over. */
    method Drive(events: seq<Event>) returns (taken: seq<Event>)
      modifies this
      ensures taken == Runnable(old(Now()), events)
      ensures IsRun(old(Now()), taken, Now())
      ensures selectionGeneration - old(selectionGeneration) == |stages| - |old(stages)| >= 0
      ensures old(targetGeneration) <= targetGeneration
    {
      taken := [];
      var i := 0;
      while i < |events|
        invariant 0 <= i <= |events|
        invariant IsRun(old(Now()), taken, Now())
        invariant Runnable(old(Now()), events) == taken + Runnable(Now(), events[i..])
        invariant selectionGeneration - old(selectionGeneration) == |stages| - |old(stages)| >= 0
        invariant old(targetGeneration) <= targetGeneration
      {
        var e := events[i];
        ghost var before := Now();
        assert events[i..][0] == e && events[i..][1..] == events[i + 1..];
        if CanTake(e) {
          Take(e);
          RunExtends(old(Now()), taken, before, e);
          taken := taken + [e];
        }
        i := i + 1;
      }
    }

    predicate CanTake(e: Event)
      reads this
      ensures CanTake(e) <==> Enabled(Now(), e)
    {
      match e
      case Begin(_, _) => true
      case Answer(g, _) => g < |stages| && stages[g].Authorizing?
      case TakeTurn => chain != [] && chain[0] < |stages| && stages[chain[0]].Queued?
      case SaveEnds(_) => chain != [] && chain[0] < |stages| && stages[chain[0]].Saving?
      case Resume => chain != [] && chain[0] < |stages| && stages[chain[0]].Landed?
    }
  }

  lemma {:induction false} RunExtends(s: State, events: seq<Event>, t: State, e: Event)
    requires IsRun(s, events, t) && Enabled(t, e)
    ensures IsRun(s, events + [e], Step(t, e))
    decreases |events|
  {
    if events == [] {
      assert IsRun(Step(t, e), [e][1..], Step(t, e));
    } else {
      RunExtends(Step(s, events[0]), events[1..], t, e);
      assert (events + [e])[1..] == events[1..] + [e];
    }
  }
}
