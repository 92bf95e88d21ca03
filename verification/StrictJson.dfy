/**
  The JSON validators on the two sides of the preload bridge. A value lives in
  a heap of arrays and objects that may share and may be cyclic; the renderer's
  validator only counts depth, Main's also rejects any object it meets twice.
 */
module StrictJson {
  import opened Wrappers
  import opened JsonNumbers
  import opened JsonText

  type Ref = nat

  /** `Other` is undefined, a function, a symbol or a big integer. */
  datatype Val = NullVal | BoolVal(b: bool) | NumVal(number: Number) | StrVal(text: Text) | RefVal(ref: Ref) | Other

  datatype Entry = Entry(key: Text, value: Val)

  datatype Object = ArrayObject(items: seq<Val>) | PlainObject(entries: seq<Entry>)

  type Heap = map<Ref, Object>

  const MAX_DEPTH := 8
  const MAX_WIDTH := 2000
  const MAX_KEY := 512
  const MAX_TEXT := 256 * 1024

  function Left(depth: nat): nat { if depth > MAX_DEPTH then 0 else MAX_DEPTH + 1 - depth }

  // ----- the renderer's validator ------------------------------------------

  predicate IsValue(h: Heap, v: Val, depth: nat)
    decreases Left(depth), 0, 0
  {
    if depth > MAX_DEPTH then false
    else match v
      case NullVal => true
      case BoolVal(_) => true
      case StrVal(_) => true
      case NumVal(x) => IsFinite(x)
      case RefVal(r) => r in h && IsContainer(h, h[r], depth)
      case Other => false
  }

  predicate IsContainer(h: Heap, o: Object, depth: nat)
    requires depth <= MAX_DEPTH
    decreases Left(depth + 1), 1, 1
  {
    match o
    case ArrayObject(items) => |items| <= MAX_WIDTH && AreValues(h, items, depth + 1)
    case PlainObject(entries) => |entries| <= MAX_WIDTH && AreEntries(h, entries, depth + 1)
  }

  predicate AreValues(h: Heap, items: seq<Val>, depth: nat)
    decreases Left(depth), 1, 0, |items|
  {
    items == [] || (IsValue(h, items[0], depth) && AreValues(h, items[1..], depth))
  }

  predicate AreEntries(h: Heap, entries: seq<Entry>, depth: nat)
    decreases Left(depth), 1, 0, |entries|
  {
    entries == []
    || (|entries[0].key| <= MAX_KEY && IsValue(h, entries[0].value, depth) && AreEntries(h, entries[1..], depth))
  }

  /** The tree that an accepted value unfolds to, which is what JSON.stringify prints. */
  function Unfold(h: Heap, v: Val, depth: nat): Json
    requires IsValue(h, v, depth)
    decreases Left(depth), 0, 0
  {
    match v
    case NullVal => Null
    case BoolVal(b) => Bool(b)
    case StrVal(s) => Str(s)
    case NumVal(x) => Num(x)
    case RefVal(r) => UnfoldContainer(h, h[r], depth)
  }

  function UnfoldContainer(h: Heap, o: Object, depth: nat): Json
    requires depth <= MAX_DEPTH && IsContainer(h, o, depth)
    decreases Left(depth + 1), 1, 1
  {
    match o
    case ArrayObject(items) => Arr(UnfoldItems(h, items, depth + 1))
    case PlainObject(entries) => Obj(UnfoldEntries(h, entries, depth + 1))
  }

  function UnfoldItems(h: Heap, items: seq<Val>, depth: nat): Items
    requires AreValues(h, items, depth)
    decreases Left(depth), 1, 0, |items|
  {
    if items == [] then NoItems else Items(Unfold(h, items[0], depth), UnfoldItems(h, items[1..], depth))
  }

  function UnfoldEntries(h: Heap, entries: seq<Entry>, depth: nat): Members
    requires AreEntries(h, entries, depth)
    decreases Left(depth), 1, 0, |entries|
  {
    if entries == [] then NoMembers
    else Members(entries[0].key, Unfold(h, entries[0].value, depth), UnfoldEntries(h, entries[1..], depth))
  }

  // ----- Main's validator --------------------------------------------------

  /** Whether the value passes, and which objects have been seen when the check is over. */
  datatype Checked = Checked(ok: bool, seen: set<Ref>)

  function CheckValue(h: Heap, v: Val, depth: nat, seen: set<Ref>): Checked
    decreases Left(depth), 0, 0
  {
    if depth > MAX_DEPTH then Checked(false, seen)
    else match v
      case NullVal => Checked(true, seen)
      case BoolVal(_) => Checked(true, seen)
      case StrVal(_) => Checked(true, seen)
      case NumVal(x) => Checked(IsFinite(x), seen)
      case RefVal(r) => if r !in h || r in seen then Checked(false, seen) else CheckContainer(h, r, depth, seen)
      case Other => Checked(false, seen)
  }

  function CheckContainer(h: Heap, r: Ref, depth: nat, seen: set<Ref>): Checked
    requires depth <= MAX_DEPTH && r in h
    decreases Left(depth + 1), 1, 1
  {
    match h[r]
    case ArrayObject(items) =>
      if |items| > MAX_WIDTH then Checked(false, seen) else CheckItems(h, items, depth + 1, seen + {r})
    case PlainObject(entries) =>
      if |entries| > MAX_WIDTH then Checked(false, seen + {r}) else CheckEntries(h, entries, depth + 1, seen + {r})
  }

  function CheckItems(h: Heap, items: seq<Val>, depth: nat, seen: set<Ref>): Checked
    decreases Left(depth), 1, 0, |items|
  {
    if items == [] then Checked(true, seen)
    else
      var first := CheckValue(h, items[0], depth, seen);
      if first.ok then CheckItems(h, items[1..], depth, first.seen) else first
  }

  function CheckEntries(h: Heap, entries: seq<Entry>, depth: nat, seen: set<Ref>): Checked
    decreases Left(depth), 1, 0, |entries|
  {
    if entries == [] then Checked(true, seen)
    else if |entries[0].key| > MAX_KEY then Checked(false, seen)
    else
      var first := CheckValue(h, entries[0].value, depth, seen);
      if first.ok then CheckEntries(h, entries[1..], depth, first.seen) else first
  }

  // ----- trees -------------------------------------------------------------

  /** The objects of a tree in the order in which they are visited. */
  function Visited(h: Heap, v: Val, depth: nat): seq<Ref>
    requires IsValue(h, v, depth)
    decreases Left(depth), 0, 0
  {
    if v.RefVal? then [v.ref] + VisitedIn(h, h[v.ref], depth) else []
  }

  function VisitedIn(h: Heap, o: Object, depth: nat): seq<Ref>
    requires depth <= MAX_DEPTH && IsContainer(h, o, depth)
    decreases Left(depth + 1), 1, 1
  {
    match o
    case ArrayObject(items) => VisitedItems(h, items, depth + 1)
    case PlainObject(entries) => VisitedEntries(h, entries, depth + 1)
  }

  function VisitedItems(h: Heap, items: seq<Val>, depth: nat): seq<Ref>
    requires AreValues(h, items, depth)
    decreases Left(depth), 1, 0, |items|
  {
    if items == [] then [] else Visited(h, items[0], depth) + VisitedItems(h, items[1..], depth)
  }

  function VisitedEntries(h: Heap, entries: seq<Entry>, depth: nat): seq<Ref>
    requires AreEntries(h, entries, depth)
    decreases Left(depth), 1, 0, |entries|
  {
    if entries == [] then [] else Visited(h, entries[0].value, depth) + VisitedEntries(h, entries[1..], depth)
  }

  /** No object twice, and none that was seen before. */
  predicate AllNew(visited: seq<Ref>, seen: set<Ref>) {
    && (forall i | 0 <= i < |visited| :: visited[i] !in seen)
    && (forall i, j | 0 <= i < j < |visited| :: visited[i] != visited[j])
  }

  function SetOf(visited: seq<Ref>): set<Ref> { set r | r in visited }

  lemma AllNewJoins(a: seq<Ref>, b: seq<Ref>, seen: set<Ref>)
    ensures AllNew(a + b, seen) <==> AllNew(a, seen) && AllNew(b, seen + SetOf(a))
    ensures seen + SetOf(a) + SetOf(b) == seen + SetOf(a + b)
  {
    var c := a + b;
    if AllNew(c, seen) {
      assert forall i | 0 <= i < |a| :: c[i] == a[i];
      assert forall i | 0 <= i < |b| :: c[|a| + i] == b[i];
      assert AllNew(a, seen);
      assert AllNew(b, seen + SetOf(a));
    }
  }

  /** Main accepts exactly what the renderer accepts and is met as a tree of new objects. */
  lemma {:induction false} MainIsStricter(h: Heap, v: Val, depth: nat, seen: set<Ref>)
    ensures CheckValue(h, v, depth, seen).ok <==> IsValue(h, v, depth) && AllNew(Visited(h, v, depth), seen)
    ensures CheckValue(h, v, depth, seen).ok ==> CheckValue(h, v, depth, seen).seen == seen + SetOf(Visited(h, v, depth))
    decreases Left(depth), 0, 0
  {
    if depth <= MAX_DEPTH && v.RefVal? && v.ref in h {
      var r := v.ref;
      match h[r]
      case ArrayObject(items) =>
        MainIsStricterOnItems(h, items, depth + 1, seen + {r});
        if AreValues(h, items, depth + 1) {
          AllNewJoins([r], VisitedItems(h, items, depth + 1), seen);
          assert SetOf([r]) == {r};
        }
      case PlainObject(entries) =>
        MainIsStricterOnEntries(h, entries, depth + 1, seen + {r});
        if AreEntries(h, entries, depth + 1) {
          AllNewJoins([r], VisitedEntries(h, entries, depth + 1), seen);
          assert SetOf([r]) == {r};
        }
    }
  }

  lemma {:induction false} MainIsStricterOnItems(h: Heap, items: seq<Val>, depth: nat, seen: set<Ref>)
    ensures CheckItems(h, items, depth, seen).ok <==> AreValues(h, items, depth) && AllNew(VisitedItems(h, items, depth), seen)
    ensures CheckItems(h, items, depth, seen).ok ==>
              CheckItems(h, items, depth, seen).seen == seen + SetOf(VisitedItems(h, items, depth))
    decreases Left(depth), 1, 0, |items|
  {
    if items != [] {
      var first := CheckValue(h, items[0], depth, seen);
      MainIsStricter(h, items[0], depth, seen);
      MainIsStricterOnItems(h, items[1..], depth, first.seen);
      if AreValues(h, items, depth) {
        AllNewJoins(Visited(h, items[0], depth), VisitedItems(h, items[1..], depth), seen);
      }
    }
  }

  lemma {:induction false} MainIsStricterOnEntries(h: Heap, entries: seq<Entry>, depth: nat, seen: set<Ref>)
    ensures CheckEntries(h, entries, depth, seen).ok <==>
              AreEntries(h, entries, depth) && AllNew(VisitedEntries(h, entries, depth), seen)
    ensures CheckEntries(h, entries, depth, seen).ok ==>
              CheckEntries(h, entries, depth, seen).seen == seen + SetOf(VisitedEntries(h, entries, depth))
    decreases Left(depth), 1, 0, |entries|
  {
    if entries != [] && |entries[0].key| <= MAX_KEY {
      var first := CheckValue(h, entries[0].value, depth, seen);
      MainIsStricter(h, entries[0].value, depth, seen);
      MainIsStricterOnEntries(h, entries[1..], depth, first.seen);
      if AreEntries(h, entries, depth) {
        AllNewJoins(Visited(h, entries[0].value, depth), VisitedEntries(h, entries[1..], depth), seen);
      }
    }
  }

  // ----- bounds ------------------------------------------------------------

  function Max(a: nat, b: nat): nat { if a < b then b else a }

  /** How many levels lie below a value. */
  function Height(t: Json): nat {
    match t
    case Arr(items) => if items.NoItems? then 0 else 1 + ItemsHeight(items)
    case Obj(ms) => if ms.NoMembers? then 0 else 1 + MembersHeight(ms)
    case _ => 0
  }

  function ItemsHeight(items: Items): nat {
    if items.NoItems? then 0 else Max(Height(items.first), ItemsHeight(items.more))
  }

  function MembersHeight(ms: Members): nat {
    if ms.NoMembers? then 0 else Max(Height(ms.value), MembersHeight(ms.rest))
  }

  function ItemCount(items: Items): nat { if items.NoItems? then 0 else 1 + ItemCount(items.more) }

  function MemberCount(ms: Members): nat { if ms.NoMembers? then 0 else 1 + MemberCount(ms.rest) }

  /** No array or object is too wide, no key too long, at any level. */
  predicate Narrow(t: Json) {
    match t
    case Arr(items) => ItemCount(items) <= MAX_WIDTH && NarrowItems(items)
    case Obj(ms) => MemberCount(ms) <= MAX_WIDTH && NarrowMembers(ms)
    case _ => true
  }

  predicate NarrowItems(items: Items) { items.Items? ==> Narrow(items.first) && NarrowItems(items.more) }

  predicate NarrowMembers(ms: Members) {
    ms.Members? ==> |ms.key| <= MAX_KEY && Narrow(ms.value) && NarrowMembers(ms.rest)
  }

  /** A finite tree within the depth, width and key bounds, seen at some depth. */
  predicate Bounded(t: Json, depth: nat) {
    depth + Height(t) <= MAX_DEPTH && Narrow(t) && Finite(t) && Proper(t)
  }

  // ----- values of the heap that are trees ---------------------------------

  /** The value unfolds to the tree `t`. */
  predicate Represents(h: Heap, v: Val, t: Json)
    decreases t
  {
    match t
    case Null => v.NullVal?
    case Bool(b) => v == BoolVal(b)
    case Str(s) => v == StrVal(s)
    case Num(x) => v == NumVal(x)
    case Arr(items) => v.RefVal? && v.ref in h && h[v.ref].ArrayObject? && RepresentsItems(h, h[v.ref].items, items)
    case Obj(ms) => v.RefVal? && v.ref in h && h[v.ref].PlainObject? && RepresentsMembers(h, h[v.ref].entries, ms)
    case Unserializable => false
  }

  predicate RepresentsItems(h: Heap, vs: seq<Val>, items: Items)
    decreases items
  {
    if items.NoItems? then vs == []
    else vs != [] && Represents(h, vs[0], items.first) && RepresentsItems(h, vs[1..], items.more)
  }

  predicate RepresentsMembers(h: Heap, entries: seq<Entry>, ms: Members)
    decreases ms
  {
    if ms.NoMembers? then entries == []
    else
      && entries != [] && entries[0].key == ms.key && Represents(h, entries[0].value, ms.value)
      && RepresentsMembers(h, entries[1..], ms.rest)
  }

  /** No object holds a key twice. */
  ghost predicate HeapProper(h: Heap) {
    forall r | r in h && h[r].PlainObject? :: DistinctKeys(h[r].entries)
  }

  predicate DistinctKeys(entries: seq<Entry>) {
    forall i, j | 0 <= i < j < |entries| :: entries[i].key != entries[j].key
  }

  lemma {:induction false} KeysAreThere(h: Heap, entries: seq<Entry>, depth: nat, key: Text)
    requires AreEntries(h, entries, depth) && key in Keys(UnfoldEntries(h, entries, depth))
    ensures exists i :: 0 <= i < |entries| && entries[i].key == key
    decreases |entries|
  {
    if entries[0].key != key {
      KeysAreThere(h, entries[1..], depth, key);
      var i :| 0 <= i < |entries[1..]| && entries[1..][i].key == key;
      assert entries[i + 1].key == key;
    }
  }

  /** What the renderer accepts is a finite tree within the bounds. */
  lemma {:induction false} AcceptedIsBoundedTree(h: Heap, v: Val, depth: nat)
    requires HeapProper(h) && IsValue(h, v, depth)
    ensures Represents(h, v, Unfold(h, v, depth)) && Bounded(Unfold(h, v, depth), depth)
    decreases Left(depth), 0, 0
  {
    if v.RefVal? {
      match h[v.ref]
      case ArrayObject(items) =>
        AcceptedItemsAreBounded(h, items, depth + 1);
        assert Unfold(h, v, depth) == Arr(UnfoldItems(h, items, depth + 1));
      case PlainObject(entries) =>
        AcceptedEntriesAreBounded(h, entries, depth + 1);
        assert Unfold(h, v, depth) == Obj(UnfoldEntries(h, entries, depth + 1));
    }
  }

  lemma {:induction false} AcceptedItemsAreBounded(h: Heap, items: seq<Val>, depth: nat)
    requires HeapProper(h) && AreValues(h, items, depth)
    ensures var t := UnfoldItems(h, items, depth);
            && RepresentsItems(h, items, t) && ItemCount(t) == |items|
            && NarrowItems(t) && FiniteItems(t) && ProperItems(t)
            && (items != [] ==> depth + ItemsHeight(t) <= MAX_DEPTH)
    decreases Left(depth), 1, 0, |items|
  {
    if items != [] {
      AcceptedIsBoundedTree(h, items[0], depth);
      AcceptedItemsAreBounded(h, items[1..], depth);
    }
  }

  lemma {:induction false} AcceptedEntriesAreBounded(h: Heap, entries: seq<Entry>, depth: nat)
    requires HeapProper(h) && AreEntries(h, entries, depth) && DistinctKeys(entries)
    ensures var t := UnfoldEntries(h, entries, depth);
            && RepresentsMembers(h, entries, t) && MemberCount(t) == |entries|
            && NarrowMembers(t) && FiniteMembers(t) && ProperMembers(t)
            && (entries != [] ==> depth + MembersHeight(t) <= MAX_DEPTH)
    decreases Left(depth), 1, 0, |entries|
  {
    if entries != [] {
      AcceptedIsBoundedTree(h, entries[0].value, depth);
      AcceptedEntriesAreBounded(h, entries[1..], depth);
      var rest := UnfoldEntries(h, entries[1..], depth);
      if entries[0].key in Keys(rest) {
        KeysAreThere(h, entries[1..], depth, entries[0].key);
      }
    }
  }

  /** And every such tree is accepted and unfolds to itself. */
  lemma {:induction false} BoundedTreeIsAccepted(h: Heap, v: Val, t: Json, depth: nat)
    requires Represents(h, v, t) && Bounded(t, depth)
    ensures IsValue(h, v, depth) && Unfold(h, v, depth) == t
    decreases t
  {
    match t
    case Arr(items) => BoundedItemsAreAccepted(h, h[v.ref].items, items, depth + 1);
    case Obj(ms) => BoundedMembersAreAccepted(h, h[v.ref].entries, ms, depth + 1);
    case _ =>
  }

  lemma {:induction false} BoundedItemsAreAccepted(h: Heap, vs: seq<Val>, items: Items, depth: nat)
    requires RepresentsItems(h, vs, items) && NarrowItems(items) && FiniteItems(items) && ProperItems(items)
    requires items.Items? ==> depth + ItemsHeight(items) <= MAX_DEPTH
    ensures |vs| == ItemCount(items) && AreValues(h, vs, depth) && UnfoldItems(h, vs, depth) == items
    decreases items
  {
    if items.Items? {
      BoundedTreeIsAccepted(h, vs[0], items.first, depth);
      BoundedItemsAreAccepted(h, vs[1..], items.more, depth);
    }
  }

  lemma {:induction false} BoundedMembersAreAccepted(h: Heap, entries: seq<Entry>, ms: Members, depth: nat)
    requires RepresentsMembers(h, entries, ms) && NarrowMembers(ms) && FiniteMembers(ms) && ProperMembers(ms)
    requires ms.Members? ==> depth + MembersHeight(ms) <= MAX_DEPTH
    ensures |entries| == MemberCount(ms) && AreEntries(h, entries, depth) && UnfoldEntries(h, entries, depth) == ms
    decreases ms
  {
    if ms.Members? {
      BoundedTreeIsAccepted(h, entries[0].value, ms.value, depth);
      BoundedMembersAreAccepted(h, entries[1..], ms.rest, depth);
    }
  }

  // ----- cycles ------------------------------------------------------------

  predicate Child(h: Heap, a: Val, b: Val) {
    a.RefVal? && a.ref in h
    && match h[a.ref]
       case ArrayObject(items) => b in items
       case PlainObject(entries) => exists i :: 0 <= i < |entries| && entries[i].value == b
  }

  predicate IsPath(h: Heap, path: seq<Val>) {
    path != [] && forall i | 0 <= i < |path| - 1 :: Child(h, path[i], path[i + 1])
  }

  lemma {:induction false} ItemAccepted(h: Heap, items: seq<Val>, depth: nat, b: Val)
    requires AreValues(h, items, depth) && b in items
    ensures IsValue(h, b, depth)
    decreases |items|
  {
    if items[0] != b {
      ItemAccepted(h, items[1..], depth, b);
    }
  }

  lemma {:induction false} EntryAccepted(h: Heap, entries: seq<Entry>, depth: nat, i: nat)
    requires AreEntries(h, entries, depth) && i < |entries|
    ensures IsValue(h, entries[i].value, depth)
    decreases |entries|
  {
    if i > 0 {
      EntryAccepted(h, entries[1..], depth, i - 1);
    }
  }

  lemma {:induction false} PathsAreShort(h: Heap, path: seq<Val>, depth: nat)
    requires IsPath(h, path) && IsValue(h, path[0], depth)
    ensures depth + |path| - 1 <= MAX_DEPTH
    decreases |path|
  {
    if |path| > 1 {
      assert Child(h, path[0], path[1]);
      match h[path[0].ref] {
        case ArrayObject(items) => ItemAccepted(h, items, depth + 1, path[1]);
        case PlainObject(entries) =>
          var i :| 0 <= i < |entries| && entries[i].value == path[1];
          EntryAccepted(h, entries, depth + 1, i);
      }
      var tail := path[1..];
      forall i | 0 <= i < |tail| - 1 ensures Child(h, tail[i], tail[i + 1]) {
        assert Child(h, path[i + 1], path[i + 2]);
      }
      PathsAreShort(h, tail, depth + 1);
    }
  }

  lemma {:induction false} CyclesGoOn(h: Heap, path: seq<Val>, n: nat) returns (longer: seq<Val>)
    requires IsPath(h, path) && |path| > 1 && path[|path| - 1] == path[0]
    ensures IsPath(h, longer) && longer[0] == path[0] && |longer| > n
    decreases n - |path|
  {
    longer := path;
    if |path| <= n {
      var twice := path + path[1..];
      forall i | 0 <= i < |twice| - 1 ensures Child(h, twice[i], twice[i + 1]) {
        if i < |path| - 1 {
          assert Child(h, path[i], path[i + 1]);
        } else {
          assert Child(h, path[i - (|path| - 1)], path[i - (|path| - 1) + 1]);
        }
      }
      longer := CyclesGoOn(h, twice, n);
    }
  }

  /** A value from which a cycle can be reached is never accepted, at any depth. */
  lemma CyclesAreRejected(h: Heap, cycle: seq<Val>, depth: nat)
    requires IsPath(h, cycle) && |cycle| > 1 && cycle[|cycle| - 1] == cycle[0]
    ensures !IsValue(h, cycle[0], depth)
  {
    if IsValue(h, cycle[0], depth) {
      var longer := CyclesGoOn(h, cycle, MAX_DEPTH + 1);
      PathsAreShort(h, longer, depth);
    }
  }

  // ----- across the bridge -------------------------------------------------

  predicate IsPlainObject(h: Heap, v: Val) { v.RefVal? && v.ref in h && h[v.ref].PlainObject? }

  /** Print, measure, and parse again into a value of its own. */
  function Copied(t: Json): Option<Json>
    requires Finite(t) && Proper(t)
  {
    if |Render(t)| > MAX_TEXT then None else Parse(Render(t))
  }

  ghost function RendererObject(h: Heap, v: Val): Option<Json>
    requires HeapProper(h)
  {
    if !IsPlainObject(h, v) || !IsValue(h, v, 0) then None
    else
      AcceptedIsBoundedTree(h, v, 0);
      Copied(Unfold(h, v, 0))
  }

  ghost function MainObject(h: Heap, v: Val): Option<Json>
    requires HeapProper(h)
  {
    if !IsPlainObject(h, v) || !CheckValue(h, v, 0, {}).ok then None
    else
      MainIsStricter(h, v, 0, {});
      AcceptedIsBoundedTree(h, v, 0);
      Copied(Unfold(h, v, 0))
  }

  /** A value that arrives over the bridge: a copy of `t` in which every object is new. */
  ghost predicate FreshCopy(h: Heap, v: Val, t: Json) {
    && HeapProper(h) && Represents(h, v, t)
    && (IsValue(h, v, 0) ==> AllNew(Visited(h, v, 0), {}))
  }

  /** Main accepts every object the renderer lets through, and returns it unchanged. */
  lemma MainAcceptsWhatTheRendererEmits(h: Heap, v: Val, t: Json, g: Heap, w: Val)
    requires HeapProper(h) && RendererObject(h, v) == Some(t)
    requires FreshCopy(g, w, t)
    ensures MainObject(g, w) == Some(t)
    ensures Bounded(t, 0) && t.Obj? && |Render(t)| <= MAX_TEXT
  {
    AcceptedIsBoundedTree(h, v, 0);
    ParseRendered(Unfold(h, v, 0));
    BoundedTreeIsAccepted(g, w, t, 0);
    MainIsStricter(g, w, 0, {});
  }

  /** A value that Main returns is the one it was given, and the renderer would have let it through. */
  lemma MainReturnsItsInput(h: Heap, v: Val)
    requires HeapProper(h) && MainObject(h, v).Some?
    ensures Represents(h, v, MainObject(h, v).value) && RendererObject(h, v) == MainObject(h, v)
  {
    MainIsStricter(h, v, 0, {});
    AcceptedIsBoundedTree(h, v, 0);
    ParseRendered(Unfold(h, v, 0));
  }

  // ----- Main's check as it runs -------------------------------------------

  /** One check with its set of objects met so far. */
  class SeenSet {
    var seen: set<Ref>

    constructor ()
      ensures seen == {}
    {
      seen := {};
    }

    method Value(h: Heap, v: Val, depth: nat) returns (ok: bool)
      modifies this
      ensures Checked(ok, seen) == CheckValue(h, v, depth, old(seen))
      decreases Left(depth), 0, 0
    {
      if depth > MAX_DEPTH {
        return false;
      }
      match v
      case NullVal => ok := true;
      case BoolVal(_) => ok := true;
      case StrVal(_) => ok := true;
      case NumVal(x) => ok := IsFinite(x);
      case Other => ok := false;
      case RefVal(r) =>
        if r !in h || r in seen {
          return false;
        }
        match h[r]
        case ArrayObject(items) =>
          if |items| > MAX_WIDTH {
            return false;
          }
          seen := seen + {r};
          ok := EveryItem(h, items, depth + 1);
        case PlainObject(entries) =>
          seen := seen + {r};
          if |entries| > MAX_WIDTH {
            return false;
          }
          ok := EveryEntry(h, entries, depth + 1);
    }

    method EveryItem(h: Heap, items: seq<Val>, depth: nat) returns (ok: bool)
      modifies this
      ensures Checked(ok, seen) == CheckItems(h, items, depth, old(seen))
      decreases Left(depth), 1
    {
      var i := 0;
      while i < |items|
        invariant 0 <= i <= |items|
        invariant CheckItems(h, items[i..], depth, seen) == CheckItems(h, items, depth, old(seen))
      {
        var passed := Value(h, items[i], depth);
        if !passed {
          return false;
        }
        assert items[i..][1..] == items[i + 1..];
        i := i + 1;
      }
      ok := true;
    }

    method EveryEntry(h: Heap, entries: seq<Entry>, depth: nat) returns (ok: bool)
      modifies this
      ensures Checked(ok, seen) == CheckEntries(h, entries, depth, old(seen))
      decreases Left(depth), 1
    {
      var i := 0;
      while i < |entries|
        invariant 0 <= i <= |entries|
        invariant CheckEntries(h, entries[i..], depth, seen) == CheckEntries(h, entries, depth, old(seen))
      {
        if |entries[i].key| > MAX_KEY {
          return false;
        }
        var passed := Value(h, entries[i].value, depth);
        if !passed {
          return false;
        }
        assert entries[i..][1..] == entries[i + 1..];
        i := i + 1;
      }
      ok := true;
    }
  }
}
