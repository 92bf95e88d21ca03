/**
  The bounded window that keeps public Workspace events from being forwarded
  twice, fed by the live socket and by any number of replay loops.
 */
module EventWindow {
  import opened Wrappers

  const LIMIT := 2000
  const MAX_PAGES := 20

  /** What is read of an event; an event without a string id has `id == None`. */
  datatype Event = Event(id: Option<string>, cursor: Option<string>) | NotAnObject

  /** The reply to one replay request, or anything that ends the loop. */
  datatype Page = Page(events: seq<Event>, next: Option<string>, hasMore: bool) | Unusable

  /** One replay loop: the connection generation it belongs to and how far it has come. */
  datatype Replay = Replay(generation: nat, requests: nat, after: Option<string>, running: bool)

  function Last<T>(s: seq<T>, n: nat): seq<T> {
    if |s| <= n then s else s[|s| - n..]
  }

  predicate Distinct<T(==)>(s: seq<T>) {
    forall i, j | 0 <= i < j < |s| :: s[i] != s[j]
  }

  /** The ids of accepted events, in the order they were accepted. */
  function Ids(events: seq<Event>): seq<string> {
    if events == [] then []
    else
      var e := events[|events| - 1];
      Ids(events[..|events| - 1]) + (if e.Event? && e.id.Some? then [e.id.value] else [])
  }

  /** Whether an event is accepted after those that were accepted before. */
  predicate IsNew(forwarded: seq<Event>, e: Event) {
    e.Event? && (e.id.Some? ==> e.id.value !in Last(Ids(forwarded), LIMIT))
  }

  function AfterEvent(forwarded: seq<Event>, e: Event): seq<Event> {
    if IsNew(forwarded, e) then forwarded + [e] else forwarded
  }

  function AfterEvents(forwarded: seq<Event>, events: seq<Event>): seq<Event> {
    if events == [] then forwarded
    else AfterEvent(AfterEvents(forwarded, events[..|events| - 1]), events[|events| - 1])
  }

  /** The cursor of the last accepted event that has one. */
  function CursorAfter(cursor: Option<string>, forwarded: seq<Event>, e: Event): Option<string> {
    if IsNew(forwarded, e) && e.cursor.Some? then e.cursor else cursor
  }

  function CursorAfterEvents(cursor: Option<string>, forwarded: seq<Event>, events: seq<Event>): Option<string> {
    if events == [] then cursor
    else
      var front := events[..|events| - 1];
      CursorAfter(CursorAfterEvents(cursor, forwarded, front), AfterEvents(forwarded, front), events[|events| - 1])
  }

  /** Where a replay loop stands after a page of its own connection. */
  function AfterPage(loop: Replay, page: Page): Replay {
    if page.Page? && page.hasMore && page.next.Some? && page.next.value != "" && loop.requests < MAX_PAGES
    then Replay(loop.generation, loop.requests + 1, page.next, true)
    else loop.(running := false)
  }

  datatype Step =
    | Reconnecting
    | Connecting(generation: nat)
    | LiveEvent(generation: nat, event: Event)
    | PageOf(loop: nat, page: Page)

  /** All of the connection but its window, which is determined by what was forwarded. */
  datatype Feed = Feed(generation: nat, cursor: Option<string>, replays: seq<Replay>, forwarded: seq<Event>)

  function AfterStep(f: Feed, step: Step): Feed {
    match step
    case Reconnecting => Feed(f.generation + 1, None, f.replays, [])
    case Connecting(g) => if g == f.generation then f.(replays := f.replays + [Replay(g, 1, f.cursor, true)]) else f
    case LiveEvent(g, e) =>
      if g != f.generation then f
      else Feed(f.generation, CursorAfter(f.cursor, f.forwarded, e), f.replays, AfterEvent(f.forwarded, e))
    case PageOf(i, page) =>
      if i >= |f.replays| || !f.replays[i].running then f
      else if f.replays[i].generation != f.generation || page.Unusable? then
        f.(replays := f.replays[i := f.replays[i].(running := false)])
      else
        Feed(f.generation, CursorAfterEvents(f.cursor, f.forwarded, page.events),
             f.replays[i := AfterPage(f.replays[i], page)], AfterEvents(f.forwarded, page.events))
  }

  function AfterSteps(f: Feed, steps: seq<Step>): Feed {
    if steps == [] then f else AfterStep(AfterSteps(f, steps[..|steps| - 1]), steps[|steps| - 1])
  }

  /** Two occurrences of an id are always more than LIMIT accepted ids apart. */
  ghost predicate FarApart(ids: seq<string>) {
    forall i, j | 0 <= i < j < |ids| && j - i <= LIMIT :: ids[i] != ids[j]
  }

  lemma LastOfMore<T>(s: seq<T>, x: T, n: nat)
    requires 0 < n
    ensures Last(s + [x], n) == if |s| < n then s + [x] else Last(s, n)[1..] + [x]
  {
  }

  /** The window decides repetition for as long as it looks back. */
  lemma FreshKeepsFarApart(ids: seq<string>, id: string)
    requires FarApart(ids) && id !in Last(ids, LIMIT)
    ensures FarApart(ids + [id])
  {
    forall i | 0 <= i < |ids| && |ids| - i <= LIMIT
      ensures ids[i] != id
    {
      var window := Last(ids, LIMIT);
      assert window[i - (|ids| - |window|)] == ids[i];
    }
  }

  lemma FarApartWindowIsDistinct(ids: seq<string>)
    requires FarApart(ids)
    ensures Distinct(Last(ids, LIMIT))
  {
  }

  /** Accepting a new id moves the window by one and keeps it free of repeats. */
  lemma WindowMoves(ids: seq<string>, id: string)
    requires FarApart(ids) && id !in Last(ids, LIMIT)
    ensures var longer := Last(ids, LIMIT) + [id];
            Last(ids + [id], LIMIT) == if |longer| > LIMIT then longer[1..] else longer
    ensures FarApart(ids + [id]) && Distinct(Last(ids + [id], LIMIT))
  {
    LastOfMore(ids, id, LIMIT);
    FreshKeepsFarApart(ids, id);
    FarApartWindowIsDistinct(ids + [id]);
  }

  class Realtime {
    var generation: nat
    var seen: seq<string>  // a Set in insertion order
    var lastCursor: Option<string>
    var replays: seq<Replay>
    ghost var forwarded: seq<Event>  // since the last reconnect

    /** The window is exactly the last accepted ids, and repeats lie outside it. */
    ghost predicate Valid()
      reads this
    {
      && seen == Last(Ids(forwarded), LIMIT) && Distinct(seen) && FarApart(Ids(forwarded))
      && (forall i | 0 <= i < |replays| :: replays[i].requests <= MAX_PAGES && replays[i].generation <= generation)
    }

    ghost function Now(): Feed
      reads this`generation, this`lastCursor, this`replays, this`forwarded
    {
      Feed(generation, lastCursor, replays, forwarded)
    }

    constructor ()
      ensures Valid() && Now() == Feed(0, None, [], [])
    {
      generation, seen, lastCursor, replays, forwarded := 0, [], None, [], [];
    }

    /** Forget everything and leave every running loop behind. */
    method Reconnect()
      requires Valid()
      modifies this
      ensures Valid() && seen == []
      ensures generation == old(generation) + 1 && lastCursor == None && replays == old(replays) && forwarded == []
      ensures Now() == AfterStep(old(Now()), Reconnecting)
    {
      generation := generation + 1;
      lastCursor := None;
      seen := [];
      forwarded := [];
    }

    /** Accept an event unless its id is in the window; an accepted event is forwarded. */
    method Accept(e: Event) returns (accepted: bool)
      requires Valid()
      modifies this`seen, this`lastCursor, this`forwarded
      ensures Valid()
      ensures accepted <==> IsNew(old(forwarded), e)
      ensures forwarded == AfterEvent(old(forwarded), e)
      ensures lastCursor == CursorAfter(old(lastCursor), old(forwarded), e)
    {
      if e.NotAnObject? {
        return false;
      }
      ghost var ids := Ids(forwarded);
      assert (forwarded + [e])[..|forwarded|] == forwarded;
      if e.id.Some? {
        if e.id.value in seen {
          return false;
        }
        WindowMoves(ids, e.id.value);
        seen := seen + [e.id.value];
        if |seen| > LIMIT {
          seen := seen[1..];
        }
      }
      forwarded := forwarded + [e];
      if e.cursor.Some? {
        lastCursor := e.cursor;
      }
      accepted := true;
    }

    /** A live event of connection `g`; an older connection's socket is ignored. */
    method Live(g: nat, e: Event)
      requires Valid()
      modifies this`seen, this`lastCursor, this`forwarded
      ensures Valid()
      ensures g != generation ==> Now() == old(Now())
      ensures g == generation && e.Event? && (e.id.Some? ==> e.id.value !in old(seen)) ==> forwarded == old(forwarded) + [e]
      ensures Now() == AfterStep(old(Now()), LiveEvent(g, e))
    {
      if g == generation {
        var accepted := Accept(e);
      }
    }

    /** The socket of connection `g` is up: start a replay loop at the last cursor. */
    method Connected(g: nat)
      requires Valid()
      modifies this`replays
      ensures Valid()
      ensures g == generation ==> replays == old(replays) + [Replay(generation, 1, lastCursor, true)]
      ensures Now() == AfterStep(old(Now()), Connecting(g))
    {
      if g == generation {
        replays := replays + [Replay(g, 1, lastCursor, true)];
      }
    }

    /** The events of a page are accepted without interruption. */
    method AcceptAll(events: seq<Event>)
      requires Valid()
      modifies this`seen, this`lastCursor, this`forwarded
      ensures Valid()
      ensures forwarded == AfterEvents(old(forwarded), events)
      ensures lastCursor == CursorAfterEvents(old(lastCursor), old(forwarded), events)
    {
      var n := 0;
      while n < |events|
        invariant 0 <= n <= |events| && Valid()
        invariant forwarded == AfterEvents(old(forwarded), events[..n])
        invariant lastCursor == CursorAfterEvents(old(lastCursor), old(forwarded), events[..n])
      {
        var accepted := Accept(events[n]);
        assert events[..n + 1][..n] == events[..n];
        n := n + 1;
      }
      assert events[..n] == events;
    }

    /** A page of loop `i` arrives. */
    method PageArrives(i: nat, page: Page)
      requires Valid() && i < |replays| && replays[i].running
      modifies this`seen, this`lastCursor, this`forwarded, this`replays
      ensures Valid()
      ensures |replays| == old(|replays|) && forall k | 0 <= k < |replays| && k != i :: replays[k] == old(replays[k])
      ensures replays[i].running <==>
                && old(replays[i].generation) == generation && page.Page? && page.hasMore
                && page.next.Some? && page.next.value != "" && old(replays[i].requests) < 20
      ensures replays[i].running ==> replays[i] == Replay(generation, old(replays[i].requests) + 1, page.next, true)
      ensures !replays[i].running ==> replays[i] == old(replays[i]).(running := false)
      ensures page.Unusable? || old(replays[i].generation) != generation ==>
                forwarded == old(forwarded) && seen == old(seen) && lastCursor == old(lastCursor)
      ensures Now() == AfterStep(old(Now()), PageOf(i, page))
    {
      var loop := replays[i];
      if loop.generation != generation || page.Unusable? {
        replays := replays[i := loop.(running := false)];
      } else {
        AcceptAll(page.events);
        var goesOn := page.hasMore && page.next.Some? && page.next.value != "" && loop.requests < MAX_PAGES;
        replays := replays[i := if goesOn then Replay(loop.generation, loop.requests + 1, page.next, true)
                                else loop.(running := false)];
      }
    }

    /** Any interleaving of reconnects, connections, live events and replay pages forwards what the fold over them says. */
    method Drive(steps: seq<Step>)
      requires Valid()
      modifies this
      ensures Valid() && Now() == AfterSteps(old(Now()), steps)
    {
      var n := 0;
      while n < |steps|
        invariant 0 <= n <= |steps| && Valid()
        invariant Now() == AfterSteps(old(Now()), steps[..n])
      {
        assert steps[..n + 1][..n] == steps[..n];
        match steps[n] {
          case Reconnecting => Reconnect();
          case Connecting(g) => Connected(g);
          case LiveEvent(g, e) => Live(g, e);
          case PageOf(i, page) =>
            if i < |replays| && replays[i].running {
              PageArrives(i, page);
            }
        }
        n := n + 1;
      }
      assert steps[..n] == steps;
    }
  }

  // ----- which events of a schedule are forwarded ----------------------------

  /** The step brings the event on the current connection: live, or on a page of a loop that still runs. */
  predicate Offers(f: Feed, step: Step, e: Event) {
    match step
    case LiveEvent(g, live) => g == f.generation && live == e
    case PageOf(i, page) =>
      && i < |f.replays| && f.replays[i].running && f.replays[i].generation == f.generation
      && page.Page? && e in page.events
    case _ => false
  }

  /** The event itself has been forwarded, or one with its id. */
  predicate IsForwarded(forwarded: seq<Event>, e: Event) {
    e in forwarded || (e.Event? && e.id.Some? && e.id.value in Ids(forwarded))
  }

  /** `more` adds to `forwarded` some of what is offered, and everything offered is forwarded then. */
  ghost predicate Accounts(forwarded: seq<Event>, more: seq<Event>, offered: seq<Event>) {
    && forwarded <= more
    && (forall e | e in offered && e.Event? :: IsForwarded(more, e))
    && (forall k | |forwarded| <= k < |more| :: more[k].Event? && more[k] in offered)
  }

  lemma {:induction false} IdsGrow(forwarded: seq<Event>, more: seq<Event>)
    ensures Ids(forwarded) <= Ids(forwarded + more)
  {
    if more == [] {
      assert forwarded + more == forwarded;
    } else {
      var all := forwarded + more;
      assert all[..|all| - 1] == forwarded + more[..|more| - 1];
      IdsGrow(forwarded, more[..|more| - 1]);
    }
  }

  lemma StaysForwarded(forwarded: seq<Event>, more: seq<Event>, e: Event)
    requires forwarded <= more && IsForwarded(forwarded, e)
    ensures IsForwarded(more, e)
  {
    assert more == forwarded + more[|forwarded|..];
    IdsGrow(forwarded, more[|forwarded|..]);
  }

  lemma EventIsAccounted(forwarded: seq<Event>, e: Event)
    ensures Accounts(forwarded, AfterEvent(forwarded, e), [e])
  {
    if !IsNew(forwarded, e) && e.Event? {
      var ids := Ids(forwarded);
      assert forall x | x in Last(ids, LIMIT) :: x in ids;
    }
  }

  lemma AccountsAdd(a: seq<Event>, b: seq<Event>, c: seq<Event>, first: seq<Event>, second: seq<Event>)
    requires Accounts(a, b, first) && Accounts(b, c, second)
    ensures Accounts(a, c, first + second)
  {
    forall e | e in first + second && e.Event? ensures IsForwarded(c, e) {
      if e in first { StaysForwarded(b, c, e); }
    }
    forall k | |a| <= k < |c| ensures c[k].Event? && c[k] in first + second {
      if k < |b| { assert c[k] == b[k]; }
    }
  }

  lemma {:induction false} EventsAreAccounted(forwarded: seq<Event>, events: seq<Event>)
    ensures Accounts(forwarded, AfterEvents(forwarded, events), events)
  {
    if events != [] {
      var front, last := events[..|events| - 1], events[|events| - 1];
      EventsAreAccounted(forwarded, front);
      EventIsAccounted(AfterEvents(forwarded, front), last);
      AccountsAdd(forwarded, AfterEvents(forwarded, front), AfterEvents(forwarded, events), front, [last]);
      assert events == front + [last];
    }
  }

  /** One step forwards only what it offers, and loses nothing of that. */
  lemma StepIsAccounted(f: Feed, step: Step)
    requires step != Reconnecting
    ensures AfterStep(f, step).generation == f.generation && f.forwarded <= AfterStep(f, step).forwarded
    ensures forall e | Offers(f, step, e) && e.Event? :: IsForwarded(AfterStep(f, step).forwarded, e)
    ensures forall k | |f.forwarded| <= k < |AfterStep(f, step).forwarded| ::
              AfterStep(f, step).forwarded[k].Event? && Offers(f, step, AfterStep(f, step).forwarded[k])
  {
    match step
    case LiveEvent(_, e) => EventIsAccounted(f.forwarded, e);
    case PageOf(_, page) => if page.Page? { EventsAreAccounted(f.forwarded, page.events); }
    case _ =>
  }

  /**
    Between two reconnects, nothing is lost and nothing is invented: whatever
    event a step offers is forwarded, itself or one with its id, and whatever is
    forwarded was offered by some step.
   */
  lemma {:induction false} ForwardedIsOffered(f: Feed, steps: seq<Step>)
    requires Reconnecting !in steps
    ensures AfterSteps(f, steps).generation == f.generation && f.forwarded <= AfterSteps(f, steps).forwarded
    ensures forall n, e | 0 <= n < |steps| && Offers(AfterSteps(f, steps[..n]), steps[n], e) && e.Event? ::
              IsForwarded(AfterSteps(f, steps).forwarded, e)
    ensures forall k | |f.forwarded| <= k < |AfterSteps(f, steps).forwarded| ::
              exists n | 0 <= n < |steps| :: Offers(AfterSteps(f, steps[..n]), steps[n], AfterSteps(f, steps).forwarded[k])
    decreases |steps|
  {
    if steps != [] {
      var m := |steps| - 1;
      var front := steps[..m];
      var before, after := AfterSteps(f, front), AfterSteps(f, steps);
      ForwardedIsOffered(f, front);
      StepIsAccounted(before, steps[m]);
      assert forall n | 0 <= n < m :: front[..n] == steps[..n] && front[n] == steps[n];
      forall n, e | 0 <= n < |steps| && Offers(AfterSteps(f, steps[..n]), steps[n], e) && e.Event?
        ensures IsForwarded(after.forwarded, e)
      {
        if n < m {
          assert Offers(AfterSteps(f, front[..n]), front[n], e);
          StaysForwarded(before.forwarded, after.forwarded, e);
        }
      }
      forall k | |f.forwarded| <= k < |after.forwarded|
        ensures exists n | 0 <= n < |steps| :: Offers(AfterSteps(f, steps[..n]), steps[n], after.forwarded[k])
      {
        if k < |before.forwarded| {
          assert after.forwarded[k] == before.forwarded[k];
          var n :| 0 <= n < m && Offers(AfterSteps(f, front[..n]), front[n], before.forwarded[k]);
          assert Offers(AfterSteps(f, steps[..n]), steps[n], after.forwarded[k]);
        } else {
          assert Offers(AfterSteps(f, steps[..m]), steps[m], after.forwarded[k]);
        }
      }
    }
  }

  /** An id is forwarded again only after LIMIT other ids: it never was in the window. */
  lemma RepeatsLieOutsideTheWindow(ids: seq<string>, i: nat, j: nat)
    requires FarApart(ids) && i < j < |ids| && ids[i] == ids[j]
    ensures j - i > LIMIT && ids[j] !in Last(ids[..j], LIMIT)
  {
    var window := Last(ids[..j], LIMIT);
    forall k | 0 <= k < |window| ensures window[k] != ids[j] {
      assert window[k] == ids[j - |window| + k];
    }
  }
}
