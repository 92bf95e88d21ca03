/**
  The canonical text of a Share delegation payload, which is what gets signed:
  members sorted by the UTF-16 code units of their keys (section 3.2.3 of RFC
  8785), everything else as JSON writes it.
 */
module CanonicalJson {
  import opened Wrappers
  import opened JsonNumbers
  import opened JsonStrings
  import opened JsonText

  // ----- the order of keys -------------------------------------------------

  predicate Before(a: Text, b: Text) {
    if a == [] then b != []
    else if b == [] then false
    else a[0] < b[0] || (a[0] == b[0] && Before(a[1..], b[1..]))
  }

  lemma {:induction false} BeforeIsTotal(a: Text, b: Text)
    ensures Before(a, b) || a == b || Before(b, a)
    ensures !(Before(a, b) && Before(b, a)) && !Before(a, a)
  {
    if a != [] {
      BeforeIsTotal(a[1..], a[1..]);
      if b != [] {
        BeforeIsTotal(a[1..], b[1..]);
        assert a == [a[0]] + a[1..] && b == [b[0]] + b[1..];
      }
    }
  }

  lemma {:induction false} BeforeIsTransitive(a: Text, b: Text, c: Text)
    requires Before(a, b) && Before(b, c)
    ensures Before(a, c)
  {
    if a != [] && b != [] && c != [] && a[0] == b[0] == c[0] {
      BeforeIsTransitive(a[1..], b[1..], c[1..]);
    }
  }

  // ----- the printer -------------------------------------------------------

  /** A key with the text of its value. */
  datatype Entry = Entry(key: Text, text: Text)

  function InsertEntry(e: Entry, sorted: seq<Entry>): seq<Entry> {
    if sorted == [] || Before(e.key, sorted[0].key) then [e] + sorted
    else [sorted[0]] + InsertEntry(e, sorted[1..])
  }

  function SortEntries(entries: seq<Entry>): seq<Entry> {
    if entries == [] then [] else InsertEntry(entries[0], SortEntries(entries[1..]))
  }

  function EntryTexts(entries: seq<Entry>): seq<Text> {
    if entries == [] then [] else [MemberText(entries[0].key, entries[0].text)] + EntryTexts(entries[1..])
  }

  /** `None` where the original throws. */
  function Print(v: Json): Option<Text>
    requires Proper(v)
  {
    match v
    case Null => Some(NULL_TEXT)
    case Bool(b) => Some(if b then TRUE_TEXT else FALSE_TEXT)
    case Str(s) => Some(Quoted(s))
    case Num(x) => if x.NotFinite? then None else Some(NumberText(x))
    case Arr(items) =>
      var parts := PrintItems(items);
      if parts.None? then None else Some([OPEN_ARRAY] + (Join(parts.value) + [CLOSE_ARRAY]))
    case Obj(ms) =>
      var entries := PrintMembers(ms);
      if entries.None? then None
      else Some([OPEN_OBJECT] + (Join(EntryTexts(SortEntries(entries.value))) + [CLOSE_OBJECT]))
    case Unserializable => None
  }

  function PrintItems(items: Items): Option<seq<Text>>
    requires ProperItems(items)
  {
    if items.NoItems? then Some([])
    else
      var first, more := Print(items.first), PrintItems(items.more);
      if first.None? || more.None? then None else Some([first.value] + more.value)
  }

  function PrintMembers(ms: Members): Option<seq<Entry>>
    requires ProperMembers(ms)
  {
    if ms.NoMembers? then Some([])
    else
      var value, rest := Print(ms.value), PrintMembers(ms.rest);
      if value.None? || rest.None? then None else Some([Entry(ms.key, value.value)] + rest.value)
  }

  // ----- unordered trees ---------------------------------------------------

  /** A value with the order of its members forgotten. */
  datatype Tree =
    | Leaf(scalar: Json)
    | Row(children: seq<Tree>)
    | Node(fields: map<Text, Tree>)

  function TreeOf(v: Json): Tree {
    match v
    case Arr(items) => Row(TreesOf(items))
    case Obj(ms) => Node(FieldsOf(ms))
    case _ => Leaf(v)
  }

  function TreesOf(items: Items): seq<Tree> {
    if items.NoItems? then [] else [TreeOf(items.first)] + TreesOf(items.more)
  }

  function FieldsOf(ms: Members): map<Text, Tree> {
    if ms.NoMembers? then map[] else FieldsOf(ms.rest)[ms.key := TreeOf(ms.value)]
  }

  lemma {:induction false} FieldsAreLookups(ms: Members)
    ensures FieldsOf(ms).Keys == Keys(ms)
    ensures forall k | k in Keys(ms) :: FieldsOf(ms)[k] == TreeOf(Lookup(ms, k))
  {
    if ms.Members? {
      FieldsAreLookups(ms.rest);
    }
  }

  // ----- canonical values --------------------------------------------------

  function InsertMember(key: Text, value: Json, sorted: Members): Members {
    if sorted.NoMembers? || Before(key, sorted.key) then Members(key, value, sorted)
    else Members(sorted.key, sorted.value, InsertMember(key, value, sorted.rest))
  }

  /** The same value with the members of every object in canonical order. */
  function Canonical(v: Json): Json {
    match v
    case Arr(items) => Arr(CanonicalItems(items))
    case Obj(ms) => Obj(CanonicalMembers(ms))
    case _ => v
  }

  function CanonicalItems(items: Items): Items {
    if items.NoItems? then NoItems else Items(Canonical(items.first), CanonicalItems(items.more))
  }

  function CanonicalMembers(ms: Members): Members {
    if ms.NoMembers? then NoMembers
    else InsertMember(ms.key, Canonical(ms.value), CanonicalMembers(ms.rest))
  }

  lemma {:induction false} InsertingAddsOne(key: Text, value: Json, sorted: Members)
    requires key !in Keys(sorted)
    ensures Keys(InsertMember(key, value, sorted)) == {key} + Keys(sorted)
    ensures Lookup(InsertMember(key, value, sorted), key) == value
    ensures forall k | k in Keys(sorted) :: Lookup(InsertMember(key, value, sorted), k) == Lookup(sorted, k)
    ensures ProperMembers(sorted) && Proper(value) ==> ProperMembers(InsertMember(key, value, sorted))
    ensures FiniteMembers(InsertMember(key, value, sorted)) <==> FiniteMembers(sorted) && Finite(value)
    decreases sorted
  {
    if sorted.Members? && !Before(key, sorted.key) {
      InsertingAddsOne(key, value, sorted.rest);
    }
  }

  predicate Sorted(ms: Members) {
    ms.Members? && ms.rest.Members? ==> Before(ms.key, ms.rest.key) && Sorted(ms.rest)
  }

  lemma {:induction false} InsertingKeepsSorted(key: Text, value: Json, sorted: Members)
    requires Sorted(sorted) && key !in Keys(sorted)
    ensures Sorted(InsertMember(key, value, sorted))
    decreases sorted
  {
    if sorted.Members? && !Before(key, sorted.key) {
      BeforeIsTotal(key, sorted.key);
      InsertingKeepsSorted(key, value, sorted.rest);
    }
  }

  lemma {:induction false} HeadIsFirst(ms: Members, k: Text)
    requires Sorted(ms) && ms.Members? && k in Keys(ms.rest)
    ensures Before(ms.key, k)
    decreases ms
  {
    if k != ms.rest.key {
      HeadIsFirst(ms.rest, k);
      BeforeIsTransitive(ms.key, ms.rest.key, k);
    }
  }

  /** A sorted list of members is determined by its keys and their values. */
  lemma {:induction false} SortedIsUnique(ms: Members, ns: Members)
    requires Sorted(ms) && Sorted(ns) && Keys(ms) == Keys(ns)
    requires forall k | k in Keys(ms) :: Lookup(ms, k) == Lookup(ns, k)
    ensures ms == ns
    decreases ms
  {
    if ms.NoMembers? {
      assert Keys(ns) == {};
    } else {
      assert ms.key in Keys(ms) && ns.Members? && ns.key in Keys(ns);
      if ms.key != ns.key {
        HeadIsFirst(ms, ns.key);
        HeadIsFirst(ns, ms.key);
        BeforeIsTotal(ms.key, ns.key);
        assert false;
      }
      if ms.key in Keys(ms.rest) { HeadIsFirst(ms, ms.key); BeforeIsTotal(ms.key, ms.key); }
      if ns.key in Keys(ns.rest) { HeadIsFirst(ns, ns.key); BeforeIsTotal(ns.key, ns.key); }
      forall k | k in Keys(ms.rest) ensures Lookup(ms.rest, k) == Lookup(ns.rest, k) {
        assert Lookup(ms, k) == Lookup(ns, k);
      }
      assert Keys(ms.rest) == Keys(ms) - {ms.key} == Keys(ns.rest);
      SortedIsUnique(ms.rest, ns.rest);
    }
  }

  lemma {:induction false} CanonicalIsProper(v: Json)
    requires Proper(v)
    ensures Proper(Canonical(v)) && (Finite(Canonical(v)) <==> Finite(v))
    ensures TreeOf(Canonical(v)) == TreeOf(v)
    decreases v
  {
    match v
    case Arr(items) => CanonicalItemsAreProper(items);
    case Obj(ms) =>
      CanonicalMembersAreProper(ms);
      FieldsAreLookups(ms);
      FieldsAreLookups(CanonicalMembers(ms));
      assert FieldsOf(CanonicalMembers(ms)) == FieldsOf(ms);
    case _ =>
  }

  lemma {:induction false} CanonicalItemsAreProper(items: Items)
    requires ProperItems(items)
    ensures ProperItems(CanonicalItems(items)) && (FiniteItems(CanonicalItems(items)) <==> FiniteItems(items))
    ensures TreesOf(CanonicalItems(items)) == TreesOf(items)
    decreases items
  {
    if items.Items? {
      CanonicalIsProper(items.first);
      CanonicalItemsAreProper(items.more);
    }
  }

  lemma {:induction false} CanonicalMembersAreProper(ms: Members)
    requires ProperMembers(ms)
    ensures ProperMembers(CanonicalMembers(ms)) && Sorted(CanonicalMembers(ms))
    ensures FiniteMembers(CanonicalMembers(ms)) <==> FiniteMembers(ms)
    ensures Keys(CanonicalMembers(ms)) == Keys(ms)
    ensures forall k | k in Keys(ms) :: Lookup(CanonicalMembers(ms), k) == Canonical(Lookup(ms, k))
    ensures forall k | k in Keys(ms) :: TreeOf(Canonical(Lookup(ms, k))) == TreeOf(Lookup(ms, k))
    decreases ms
  {
    if ms.Members? {
      CanonicalIsProper(ms.value);
      CanonicalMembersAreProper(ms.rest);
      InsertingAddsOne(ms.key, Canonical(ms.value), CanonicalMembers(ms.rest));
      InsertingKeepsSorted(ms.key, Canonical(ms.value), CanonicalMembers(ms.rest));
    }
  }

  // ----- the print is the rendering of the canonical value -----------------

  function EntriesOf(ms: Members): seq<Entry>
    requires FiniteMembers(ms) && ProperMembers(ms)
  {
    if ms.NoMembers? then [] else [Entry(ms.key, Render(ms.value))] + EntriesOf(ms.rest)
  }

  lemma {:induction false} EntryTextsAreMemberTexts(ms: Members)
    requires FiniteMembers(ms) && ProperMembers(ms)
    ensures EntryTexts(EntriesOf(ms)) == MemberTexts(ms)
  {
    if ms.Members? {
      EntryTextsAreMemberTexts(ms.rest);
      assert EntriesOf(ms)[1..] == EntriesOf(ms.rest);
    }
  }

  /** Inserting before rendering is inserting after rendering. */
  lemma {:induction false} InsertingCommutes(key: Text, value: Json, sorted: Members)
    requires FiniteMembers(sorted) && ProperMembers(sorted) && Finite(value) && Proper(value) && key !in Keys(sorted)
    ensures FiniteMembers(InsertMember(key, value, sorted)) && ProperMembers(InsertMember(key, value, sorted))
    ensures InsertEntry(Entry(key, Render(value)), EntriesOf(sorted)) == EntriesOf(InsertMember(key, value, sorted))
    decreases sorted
  {
    InsertingAddsOne(key, value, sorted);
    if sorted.Members? {
      assert EntriesOf(sorted)[1..] == EntriesOf(sorted.rest);
      if !Before(key, sorted.key) {
        InsertingCommutes(key, value, sorted.rest);
      }
    }
  }

  lemma {:induction false} PrintRendersCanonical(v: Json)
    requires Proper(v)
    ensures Finite(v) ==> Finite(Canonical(v)) && Proper(Canonical(v)) && Print(v) == Some(Render(Canonical(v)))
    ensures !Finite(v) ==> Print(v).None?
    decreases v
  {
    match v
    case Arr(items) => PrintRendersItems(items);
    case Obj(ms) =>
      PrintRendersMembers(ms);
      if FiniteMembers(ms) {
        EntryTextsAreMemberTexts(CanonicalMembers(ms));
      }
    case _ =>
  }

  lemma {:induction false} PrintRendersItems(items: Items)
    requires ProperItems(items)
    ensures FiniteItems(items) ==> FiniteItems(CanonicalItems(items)) && ProperItems(CanonicalItems(items))
                                   && PrintItems(items) == Some(ItemTexts(CanonicalItems(items)))
    ensures !FiniteItems(items) ==> PrintItems(items).None?
    decreases items
  {
    if items.Items? {
      PrintRendersCanonical(items.first);
      PrintRendersItems(items.more);
    }
  }

  lemma {:induction false} PrintRendersMembers(ms: Members)
    requires ProperMembers(ms)
    ensures FiniteMembers(ms) ==> FiniteMembers(CanonicalMembers(ms)) && ProperMembers(CanonicalMembers(ms))
                                  && PrintMembers(ms).Some?
                                  && SortEntries(PrintMembers(ms).value) == EntriesOf(CanonicalMembers(ms))
    ensures !FiniteMembers(ms) ==> PrintMembers(ms).None?
    decreases ms
  {
    if ms.Members? {
      PrintRendersCanonical(ms.value);
      PrintRendersMembers(ms.rest);
      if FiniteMembers(ms) {
        CanonicalMembersAreProper(ms.rest);
        InsertingCommutes(ms.key, Canonical(ms.value), CanonicalMembers(ms.rest));
        var entries := PrintMembers(ms).value;
        assert entries[1..] == PrintMembers(ms.rest).value;
      }
    }
  }

  // ----- equal trees have equal canonical values ---------------------------

  lemma {:induction false} SameTreeSameCanonical(v: Json, w: Json)
    requires Proper(v) && Proper(w) && TreeOf(v) == TreeOf(w)
    ensures Canonical(v) == Canonical(w)
    decreases v, 1
  {
    match v
    case Arr(items) => SameTreesSameItems(items, w.items);
    case Obj(ms) =>
      FieldsAreLookups(ms);
      FieldsAreLookups(w.members);
      CanonicalMembersAreProper(ms);
      CanonicalMembersAreProper(w.members);
      forall k | k in Keys(ms)
        ensures Lookup(CanonicalMembers(ms), k) == Lookup(CanonicalMembers(w.members), k)
      {
        LookupIsProper(w.members, k);
        SameFieldSameCanonical(ms, k, Lookup(w.members, k));
      }
      SortedIsUnique(CanonicalMembers(ms), CanonicalMembers(w.members));
    case _ =>
  }

  lemma {:induction false} LookupIsProper(ms: Members, k: Text)
    requires ProperMembers(ms) && k in Keys(ms)
    ensures Proper(Lookup(ms, k))
  {
    if ms.key != k {
      LookupIsProper(ms.rest, k);
    }
  }

  lemma {:induction false} SameTreesSameItems(items: Items, others: Items)
    requires ProperItems(items) && ProperItems(others) && TreesOf(items) == TreesOf(others)
    ensures CanonicalItems(items) == CanonicalItems(others)
    decreases items, 0
  {
    if items.Items? {
      assert others.Items?;
      assert TreesOf(items)[0] == TreeOf(items.first) && TreesOf(others)[0] == TreeOf(others.first);
      assert TreesOf(items)[1..] == TreesOf(items.more) && TreesOf(others)[1..] == TreesOf(others.more);
      SameTreeSameCanonical(items.first, others.first);
      SameTreesSameItems(items.more, others.more);
    } else {
      assert others.NoItems?;
    }
  }

  lemma {:induction false} SameFieldSameCanonical(ms: Members, k: Text, w: Json)
    requires ProperMembers(ms) && k in Keys(ms) && Proper(w) && TreeOf(Lookup(ms, k)) == TreeOf(w)
    ensures Canonical(Lookup(ms, k)) == Canonical(w)
    decreases ms, 0
  {
    if ms.key == k {
      SameTreeSameCanonical(ms.value, w);
    } else {
      SameFieldSameCanonical(ms.rest, k, w);
    }
  }

  // ----- the results -------------------------------------------------------

  /** Exactly the finite values have a canonical text. */
  lemma PrintsExactlyFiniteValues(v: Json)
    requires Proper(v)
    ensures Print(v).Some? <==> Finite(v)
  {
    PrintRendersCanonical(v);
  }

  /** Two values have the same canonical text if and only if they are the same unordered tree. */
  lemma PrintIsInjectiveUpToOrder(v: Json, w: Json)
    requires Proper(v) && Proper(w) && Finite(v) && Finite(w)
    ensures Print(v) == Print(w) <==> TreeOf(v) == TreeOf(w)
  {
    PrintRendersCanonical(v);
    PrintRendersCanonical(w);
    CanonicalIsProper(v);
    CanonicalIsProper(w);
    if Print(v) == Print(w) {
      ParseRendered(Canonical(v));
      ParseRendered(Canonical(w));
    }
    if TreeOf(v) == TreeOf(w) {
      SameTreeSameCanonical(v, w);
    }
  }

  /** Parsing the canonical text gives the tree back, and printing that again gives the same text. */
  lemma PrintRoundTrips(v: Json)
    requires Proper(v) && Finite(v)
    ensures Print(v).Some? && Parse(Print(v).value).Some?
    ensures var back := Parse(Print(v).value).value;
            Proper(back) && Finite(back) && TreeOf(back) == TreeOf(v) && Print(back) == Print(v)
  {
    PrintRendersCanonical(v);
    CanonicalIsProper(v);
    ParseRendered(Canonical(v));
    PrintIsInjectiveUpToOrder(Canonical(v), v);
  }

  // ----- the order of the printed keys -------------------------------------

  /** At the first place where they differ, `k` has the smaller code unit, or has ended. */
  ghost predicate Precedes(k: Text, l: Text) {
    exists i: nat {:trigger k[..i]} ::
      i <= |k| && i <= |l| && k[..i] == l[..i] && (if i == |k| then i < |l| else i < |l| && k[i] < l[i])
  }

  /** In every object, at any depth, each key precedes the next. */
  ghost predicate Ascending(v: Json) {
    match v
    case Arr(items) => AscendingItems(items)
    case Obj(ms) => AscendingMembers(ms)
    case _ => true
  }

  ghost predicate AscendingItems(items: Items) {
    items.Items? ==> Ascending(items.first) && AscendingItems(items.more)
  }

  ghost predicate AscendingMembers(ms: Members) {
    ms.Members? ==>
      && Ascending(ms.value) && AscendingMembers(ms.rest)
      && (ms.rest.Members? ==> Precedes(ms.key, ms.rest.key))
  }

  lemma {:induction false} BeforePrecedes(a: Text, b: Text)
    requires Before(a, b)
    ensures Precedes(a, b)
  {
    if a == [] || a[0] != b[0] {
      assert a[..0] == b[..0];
    } else {
      BeforePrecedes(a[1..], b[1..]);
      var i: nat :| i <= |a[1..]| && i <= |b[1..]| && a[1..][..i] == b[1..][..i]
                    && (if i == |a[1..]| then i < |b[1..]| else i < |b[1..]| && a[1..][i] < b[1..][i]);
      assert a[..i + 1] == [a[0]] + a[1..][..i] == [b[0]] + b[1..][..i] == b[..i + 1];
    }
  }

  lemma {:induction false} InsertingKeepsAscending(key: Text, value: Json, sorted: Members)
    requires AscendingMembers(sorted) && Ascending(value) && Sorted(InsertMember(key, value, sorted))
    ensures AscendingMembers(InsertMember(key, value, sorted))
    decreases sorted
  {
    var ms := InsertMember(key, value, sorted);
    if sorted.Members? && !Before(key, sorted.key) {
      InsertingKeepsAscending(key, value, sorted.rest);
    }
    if ms.rest.Members? {
      BeforePrecedes(ms.key, ms.rest.key);
    }
  }

  lemma {:induction false} CanonicalAscends(v: Json)
    requires Proper(v)
    ensures Ascending(Canonical(v))
    decreases v
  {
    match v
    case Arr(items) => CanonicalItemsAscend(items);
    case Obj(ms) => CanonicalMembersAscend(ms);
    case _ =>
  }

  lemma {:induction false} CanonicalItemsAscend(items: Items)
    requires ProperItems(items)
    ensures AscendingItems(CanonicalItems(items))
    decreases items
  {
    if items.Items? {
      CanonicalAscends(items.first);
      CanonicalItemsAscend(items.more);
    }
  }

  lemma {:induction false} CanonicalMembersAscend(ms: Members)
    requires ProperMembers(ms)
    ensures AscendingMembers(CanonicalMembers(ms))
    decreases ms
  {
    if ms.Members? {
      CanonicalAscends(ms.value);
      CanonicalMembersAscend(ms.rest);
      CanonicalMembersAreProper(ms.rest);
      InsertingKeepsSorted(ms.key, Canonical(ms.value), CanonicalMembers(ms.rest));
      InsertingKeepsAscending(ms.key, Canonical(ms.value), CanonicalMembers(ms.rest));
    }
  }

  /**
    Whoever reads the printed text meets the keys of every object in ascending
    order of their code units.
   */
  lemma PrintedKeysAscend(v: Json)
    requires Proper(v) && Finite(v)
    ensures Print(v).Some? && Parse(Print(v).value).Some? && Ascending(Parse(Print(v).value).value)
  {
    PrintRendersCanonical(v);
    CanonicalIsProper(v);
    ParseRendered(Canonical(v));
    CanonicalAscends(v);
  }

  lemma {:induction false} PrecedesIsBefore(a: Text, b: Text)
    requires Precedes(a, b)
    ensures Before(a, b)
  {
    var i: nat :| i <= |a| && i <= |b| && a[..i] == b[..i] && (if i == |a| then i < |b| else i < |b| && a[i] < b[i]);
    if i > 0 {
      assert a[0] == a[..i][0] == b[..i][0] == b[0];
      assert a[1..][..i - 1] == a[..i][1..] == b[..i][1..] == b[1..][..i - 1];
      PrecedesIsBefore(a[1..], b[1..]);
    }
  }

  lemma {:induction false} AscendingIsCanonical(v: Json)
    requires Proper(v) && Ascending(v)
    ensures Canonical(v) == v
    decreases v
  {
    match v
    case Arr(items) => AscendingItemsAreCanonical(items);
    case Obj(ms) => AscendingMembersAreCanonical(ms);
    case _ =>
  }

  lemma {:induction false} AscendingItemsAreCanonical(items: Items)
    requires ProperItems(items) && AscendingItems(items)
    ensures CanonicalItems(items) == items
    decreases items
  {
    if items.Items? {
      AscendingIsCanonical(items.first);
      AscendingItemsAreCanonical(items.more);
    }
  }

  lemma {:induction false} AscendingMembersAreCanonical(ms: Members)
    requires ProperMembers(ms) && AscendingMembers(ms)
    ensures CanonicalMembers(ms) == ms
    decreases ms
  {
    if ms.Members? {
      AscendingIsCanonical(ms.value);
      AscendingMembersAreCanonical(ms.rest);
      if ms.rest.Members? {
        PrecedesIsBefore(ms.key, ms.rest.key);
      }
    }
  }

  /** Values whose keys ascend already are printed as they stand: they are exactly the fixed points of printing and reading. */
  lemma AscendingIsFixed(v: Json)
    requires Proper(v) && Finite(v)
    ensures Ascending(v) <==> Print(v) == Some(Render(v))
  {
    PrintRendersCanonical(v);
    CanonicalIsProper(v);
    if Ascending(v) {
      AscendingIsCanonical(v);
    }
    if Print(v) == Some(Render(v)) {
      ParseRendered(v);
      PrintedKeysAscend(v);
    }
  }
}
