/**
  The two recursive sanitizers that cut a Server payload down to what the
  renderer may see. They share one recursion and differ in their bounds and in
  the keys they drop; an object is rebuilt by assignments, so two keys that
  become equal by truncation fall together.
 */
module Sanitizers {
  import opened Wrappers
  import opened JsonNumbers
  import opened JsonText

  datatype Policy = Policy(maxText: nat, maxDepth: nat, maxItems: nat, maxKey: Option<nat>, drops: Text -> bool)

  /** A kept key is still kept when it is truncated. */
  ghost predicate Stable(p: Policy) {
    forall key :: !p.drops(key) ==> !p.drops(CutKey(key, p.maxKey))
  }

  function Cut(t: Text, n: nat): (r: Text)
    ensures r <= t && |r| == if |t| <= n then |t| else n
  {
    if |t| <= n then t else t[..n]
  }

  function CutKey(key: Text, maxKey: Option<nat>): Text {
    if maxKey.Some? then Cut(key, maxKey.value) else key
  }

  predicate FitsKey(key: Text, maxKey: Option<nat>) { maxKey.Some? ==> |key| <= maxKey.value }

  // ----- objects under assignment ------------------------------------------

  /** Assigning to an object: an existing key keeps its place. */
  function Put(ms: Members, key: Text, value: Json): (r: Members)
    ensures Keys(r) == Keys(ms) + {key}
  {
    if ms.NoMembers? then Members(key, value, NoMembers)
    else if ms.key == key then Members(key, value, ms.rest)
    else Members(ms.key, ms.value, Put(ms.rest, key, value))
  }

  function Append(ms: Members, more: Members): Members {
    if ms.NoMembers? then more else Members(ms.key, ms.value, Append(ms.rest, more))
  }

  // ----- the recursion -----------------------------------------------------

  /** `None` stands for undefined. */
  function Sanitize(p: Policy, v: Json, depth: nat): Option<Json>
    decreases v
  {
    match v
    case Null => Some(v)
    case Bool(_) => Some(v)
    case Num(_) => Some(v)
    case Str(s) => Some(Str(Cut(s, p.maxText)))
    case Arr(items) => if depth > p.maxDepth then None else Some(Arr(SanitizeItems(p, items, p.maxItems, depth + 1)))
    case Obj(ms) => if depth > p.maxDepth then None else Some(Obj(SanitizeInto(p, ms, NoMembers, depth + 1)))
    case Unserializable => None
  }

  /** The first `n` items, without those that become undefined. */
  function SanitizeItems(p: Policy, items: Items, n: nat, depth: nat): Items
    decreases items
  {
    if items.NoItems? || n == 0 then NoItems
    else
      var first := Sanitize(p, items.first, depth);
      var more := SanitizeItems(p, items.more, n - 1, depth);
      if first.None? then more else Items(first.value, more)
  }

  /** Go through the members and assign what is kept of them to `output`. */
  function SanitizeInto(p: Policy, ms: Members, output: Members, depth: nat): Members
    decreases ms
  {
    if ms.NoMembers? then output
    else SanitizeInto(p, ms.rest, Assign(p, ms.key, if p.drops(ms.key) then None else Sanitize(p, ms.value, depth), output), depth)
  }

  function Assign(p: Policy, key: Text, value: Option<Json>, output: Members): Members {
    if value.None? then output else Put(output, CutKey(key, p.maxKey), value.value)
  }

  // ----- what a sanitized value looks like ---------------------------------

  /** Within all bounds, without any dropped key, and with every key once. */
  predicate Clean(p: Policy, v: Json, depth: nat) {
    match v
    case Str(s) => |s| <= p.maxText
    case Arr(items) => depth <= p.maxDepth && CountItems(items) <= p.maxItems && CleanItems(p, items, depth + 1)
    case Obj(ms) => depth <= p.maxDepth && CleanMembers(p, ms, depth + 1)
    case Unserializable => false
    case _ => true
  }

  function CountItems(items: Items): nat { if items.NoItems? then 0 else 1 + CountItems(items.more) }

  predicate CleanItems(p: Policy, items: Items, depth: nat) {
    items.Items? ==> Clean(p, items.first, depth) && CleanItems(p, items.more, depth)
  }

  predicate CleanMembers(p: Policy, ms: Members, depth: nat) {
    ms.Members? ==>
      && FitsKey(ms.key, p.maxKey) && !p.drops(ms.key) && ms.key !in Keys(ms.rest)
      && Clean(p, ms.value, depth) && CleanMembers(p, ms.rest, depth)
  }

  lemma {:induction false} PutKeepsClean(p: Policy, ms: Members, key: Text, value: Json, depth: nat)
    requires CleanMembers(p, ms, depth) && Clean(p, value, depth) && FitsKey(key, p.maxKey) && !p.drops(key)
    ensures CleanMembers(p, Put(ms, key, value), depth)
    decreases ms
  {
    if ms.Members? && ms.key != key {
      PutKeepsClean(p, ms.rest, key, value, depth);
    }
  }

  /** Every output is within the bounds and free of dropped keys. */
  lemma {:induction false} SanitizedIsClean(p: Policy, v: Json, depth: nat)
    requires Stable(p)
    ensures Sanitize(p, v, depth).Some? ==> Clean(p, Sanitize(p, v, depth).value, depth)
    decreases v
  {
    match v
    case Arr(items) => SanitizedItemsAreClean(p, items, p.maxItems, depth + 1);
    case Obj(ms) => SanitizedMembersAreClean(p, ms, NoMembers, depth + 1);
    case _ =>
  }

  lemma {:induction false} SanitizedItemsAreClean(p: Policy, items: Items, n: nat, depth: nat)
    requires Stable(p)
    ensures var r := SanitizeItems(p, items, n, depth); CleanItems(p, r, depth) && CountItems(r) <= n
    decreases items
  {
    if items.Items? && n > 0 {
      SanitizedIsClean(p, items.first, depth);
      SanitizedItemsAreClean(p, items.more, n - 1, depth);
    }
  }

  lemma {:induction false} SanitizedMembersAreClean(p: Policy, ms: Members, output: Members, depth: nat)
    requires Stable(p) && CleanMembers(p, output, depth)
    ensures CleanMembers(p, SanitizeInto(p, ms, output, depth), depth)
    decreases ms
  {
    if ms.Members? {
      var value := if p.drops(ms.key) then None else Sanitize(p, ms.value, depth);
      if value.Some? {
        SanitizedIsClean(p, ms.value, depth);
        PutKeepsClean(p, output, CutKey(ms.key, p.maxKey), value.value, depth);
      }
      SanitizedMembersAreClean(p, ms.rest, Assign(p, ms.key, value, output), depth);
    }
  }

  // ----- clean values stay as they are -------------------------------------

  lemma {:induction false} PutAppends(ms: Members, key: Text, value: Json)
    requires key !in Keys(ms)
    ensures Put(ms, key, value) == Append(ms, Members(key, value, NoMembers))
    decreases ms
  {
    if ms.Members? {
      PutAppends(ms.rest, key, value);
    }
  }

  lemma {:induction false} AppendIsAssociative(a: Members, b: Members, c: Members)
    ensures Append(Append(a, b), c) == Append(a, Append(b, c))
    decreases a
  {
    if a.Members? {
      AppendIsAssociative(a.rest, b, c);
    }
  }

  lemma {:induction false} CleanStays(p: Policy, v: Json, depth: nat)
    requires Clean(p, v, depth)
    ensures Sanitize(p, v, depth) == Some(v)
    decreases v
  {
    match v
    case Arr(items) => CleanItemsStay(p, items, p.maxItems, depth + 1);
    case Obj(ms) => CleanMembersStay(p, ms, NoMembers, depth + 1);
    case _ =>
  }

  lemma {:induction false} CleanItemsStay(p: Policy, items: Items, n: nat, depth: nat)
    requires CleanItems(p, items, depth) && CountItems(items) <= n
    ensures SanitizeItems(p, items, n, depth) == items
    decreases items
  {
    if items.Items? {
      CleanStays(p, items.first, depth);
      CleanItemsStay(p, items.more, n - 1, depth);
    }
  }

  lemma {:induction false} CleanMembersStay(p: Policy, ms: Members, output: Members, depth: nat)
    requires CleanMembers(p, ms, depth) && Keys(ms) !! Keys(output)
    ensures SanitizeInto(p, ms, output, depth) == Append(output, ms)
    decreases ms
  {
    if ms.Members? {
      CleanStays(p, ms.value, depth);
      PutAppends(output, ms.key, ms.value);
      CleanMembersStay(p, ms.rest, Put(output, ms.key, ms.value), depth);
      AppendIsAssociative(output, Members(ms.key, ms.value, NoMembers), ms.rest);
    } else {
      AppendNothing(output);
    }
  }

  lemma {:induction false} AppendNothing(ms: Members)
    ensures Append(ms, NoMembers) == ms
  {
    if ms.Members? {
      AppendNothing(ms.rest);
    }
  }

  // ----- dropped parts do not matter ---------------------------------------

  /** Becomes undefined: nothing of it, not even its place, is left. */
  predicate Vanishes(p: Policy, v: Json, depth: nat) {
    v.Unserializable? || ((v.Arr? || v.Obj?) && depth > p.maxDepth)
  }

  /** The members that are neither dropped by their key nor undefined, in order. */
  function Kept(p: Policy, ms: Members, depth: nat): Members {
    if ms.NoMembers? then NoMembers
    else if p.drops(ms.key) || Vanishes(p, ms.value, depth) then Kept(p, ms.rest, depth)
    else Members(ms.key, ms.value, Kept(p, ms.rest, depth))
  }

  /** Those of the first `n` items that are not undefined. */
  function KeptItems(p: Policy, items: Items, n: nat, depth: nat): Items {
    if items.NoItems? || n == 0 then NoItems
    else if Vanishes(p, items.first, depth) then KeptItems(p, items.more, n - 1, depth)
    else Items(items.first, KeptItems(p, items.more, n - 1, depth))
  }

  /** Equal but for what is beyond a bound, under a dropped key or undefined. */
  predicate SameKept(p: Policy, v: Json, w: Json, depth: nat)
    decreases v
  {
    if Vanishes(p, v, depth) || Vanishes(p, w, depth) then Vanishes(p, v, depth) && Vanishes(p, w, depth)
    else match v
    case Str(s) => w.Str? && Cut(s, p.maxText) == Cut(w.text, p.maxText)
    case Arr(items) => w.Arr? && SameKeptItems(p, items, p.maxItems, KeptItems(p, w.items, p.maxItems, depth + 1), depth + 1)
    case Obj(ms) => w.Obj? && SameKeptMembers(p, ms, Kept(p, w.members, depth + 1), depth + 1)
    case _ => v == w
  }

  predicate SameKeptItems(p: Policy, items: Items, n: nat, kept: Items, depth: nat)
    decreases items
  {
    if items.NoItems? || n == 0 then kept.NoItems?
    else if Vanishes(p, items.first, depth) then SameKeptItems(p, items.more, n - 1, kept, depth)
    else
      && kept.Items? && SameKept(p, items.first, kept.first, depth)
      && SameKeptItems(p, items.more, n - 1, kept.more, depth)
  }

  /** Keys that are kept need to agree only as far as they are kept. */
  predicate SameKeptMembers(p: Policy, ms: Members, kept: Members, depth: nat)
    decreases ms
  {
    if ms.NoMembers? then kept.NoMembers?
    else if p.drops(ms.key) || Vanishes(p, ms.value, depth) then SameKeptMembers(p, ms.rest, kept, depth)
    else
      && kept.Members? && CutKey(ms.key, p.maxKey) == CutKey(kept.key, p.maxKey)
      && SameKept(p, ms.value, kept.value, depth)
      && SameKeptMembers(p, ms.rest, kept.rest, depth)
  }

  lemma {:induction false} OnlyKeptMembersCount(p: Policy, ms: Members, output: Members, depth: nat)
    ensures SanitizeInto(p, Kept(p, ms, depth), output, depth) == SanitizeInto(p, ms, output, depth)
    decreases ms
  {
    if ms.Members? {
      var value := if p.drops(ms.key) then None else Sanitize(p, ms.value, depth);
      OnlyKeptMembersCount(p, ms.rest, Assign(p, ms.key, value, output), depth);
    }
  }

  lemma {:induction false} OnlyKeptItemsCount(p: Policy, items: Items, n: nat, room: nat, depth: nat)
    requires CountItems(KeptItems(p, items, n, depth)) <= room
    ensures SanitizeItems(p, KeptItems(p, items, n, depth), room, depth) == SanitizeItems(p, items, n, depth)
    decreases items
  {
    if items.Items? && n > 0 {
      OnlyKeptItemsCount(p, items.more, n - 1, if Vanishes(p, items.first, depth) then room else room - 1, depth);
    }
  }

  lemma {:induction false} KeptItemsAreFew(p: Policy, items: Items, n: nat, depth: nat)
    ensures CountItems(KeptItems(p, items, n, depth)) <= n
  {
    if items.Items? && n > 0 {
      KeptItemsAreFew(p, items.more, n - 1, depth);
    }
  }

  predicate AllKept(p: Policy, ms: Members) { ms.Members? ==> !p.drops(ms.key) && AllKept(p, ms.rest) }

  lemma {:induction false} KeptAreKept(p: Policy, ms: Members, depth: nat)
    ensures AllKept(p, Kept(p, ms, depth))
  {
    if ms.Members? {
      KeptAreKept(p, ms.rest, depth);
    }
  }

  /** Two inputs that differ only in dropped, cut or undefined parts have the same output. */
  lemma {:induction false} DroppedPartsDoNotMatter(p: Policy, v: Json, w: Json, depth: nat)
    requires SameKept(p, v, w, depth)
    ensures Sanitize(p, v, depth) == Sanitize(p, w, depth)
    decreases v
  {
    match v
    case Arr(items) =>
      if depth <= p.maxDepth {
        var n := p.maxItems;
        KeptItemsAreFew(p, w.items, n, depth + 1);
        DroppedItemsDoNotMatter(p, items, n, KeptItems(p, w.items, n, depth + 1), n, depth + 1);
        OnlyKeptItemsCount(p, w.items, n, n, depth + 1);
      }
    case Obj(ms) =>
      if depth <= p.maxDepth {
        KeptAreKept(p, w.members, depth + 1);
        DroppedMembersDoNotMatter(p, ms, Kept(p, w.members, depth + 1), NoMembers, depth + 1);
        OnlyKeptMembersCount(p, w.members, NoMembers, depth + 1);
      }
    case _ =>
  }

  lemma {:induction false} DroppedItemsDoNotMatter(p: Policy, items: Items, n: nat, kept: Items, room: nat, depth: nat)
    requires SameKeptItems(p, items, n, kept, depth) && CountItems(kept) <= room
    ensures SanitizeItems(p, items, n, depth) == SanitizeItems(p, kept, room, depth)
    decreases items
  {
    if items.Items? && n > 0 {
      if Vanishes(p, items.first, depth) {
        DroppedItemsDoNotMatter(p, items.more, n - 1, kept, room, depth);
      } else {
        DroppedPartsDoNotMatter(p, items.first, kept.first, depth);
        DroppedItemsDoNotMatter(p, items.more, n - 1, kept.more, room - 1, depth);
      }
    }
  }

  lemma {:induction false} DroppedMembersDoNotMatter(p: Policy, ms: Members, kept: Members, output: Members, depth: nat)
    requires SameKeptMembers(p, ms, kept, depth) && AllKept(p, kept)
    ensures SanitizeInto(p, ms, output, depth) == SanitizeInto(p, kept, output, depth)
    decreases ms
  {
    if ms.Members? {
      if p.drops(ms.key) || Vanishes(p, ms.value, depth) {
        DroppedMembersDoNotMatter(p, ms.rest, kept, output, depth);
      } else {
        DroppedPartsDoNotMatter(p, ms.value, kept.value, depth);
        DroppedMembersDoNotMatter(p, ms.rest, kept.rest, Assign(p, ms.key, Sanitize(p, ms.value, depth), output), depth);
      }
    }
  }

  // ----- the two policies --------------------------------------------------

  function LowerUnit(u: Unit): Unit { if 0x41 <= u <= 0x5A then u + 0x20 else u }

  function Lower(t: Text): Text { seq(|t|, i requires 0 <= i < |t| => LowerUnit(t[i])) }

  predicate OccursAt(t: Text, word: Text, i: nat) { i + |word| <= |t| && t[i..i + |word|] == word }

  /** One of the words occurs somewhere in the key, in any case of letters. */
  predicate Mentions(key: Text, words: set<Text>) {
    exists word, i | word in words && 0 <= i <= |key| :: OccursAt(Lower(key), word, i)
  }

  function Word(s: string): Text { seq(|s|, i requires 0 <= i < |s| => if s[i] <= '~' then s[i] as int else 0) }

  const EVENT_SECRETS: set<Text> :=
    {Word("private"), Word("secret"), Word("credential"), Word("password"), Word("token"), Word("authorization"),
     Word("apikey"), Word("api_key"), Word("api-key"), Word("session")}

  const BODY_KEYS: set<Text> := {Word("content"), Word("body"), Word("prompt"), Word("message"), Word("text")}

  predicate EventDrops(key: Text, secrets: set<Text>, bodies: set<Text>) {
    Mentions(key, secrets) || Lower(key) in bodies
  }

  function EventPolicyOf(secrets: set<Text>, bodies: set<Text>): Policy {
    Policy(4096, 6, 100, Some(128), key => EventDrops(key, secrets, bodies))
  }

  function EventPolicy(): Policy { EventPolicyOf(EVENT_SECRETS, BODY_KEYS) }

  const PUBLIC_SECRETS: set<Text> :=
    {Word("private"), Word("secret"), Word("credential"), Word("password"),
     Word("rawtoken"), Word("raw_token"), Word("raw-token")}

  /** `allowed` is the list of public payload keys; keys are not truncated. */
  function PublicPolicy(allowed: set<Text>, includeInvitationToken: bool): Policy {
    Policy(20000, 8, 1000, None,
           key => Mentions(key, PUBLIC_SECRETS) || (if key == Word("token") then !includeInvitationToken else key !in allowed))
  }

  /** A secret word in a truncated key is in the whole key. */
  lemma CutMentionsLess(key: Text, n: nat, words: set<Text>)
    requires Mentions(Cut(key, n), words)
    ensures Mentions(key, words)
  {
    var cut := Cut(key, n);
    var word, i :| word in words && 0 <= i <= |cut| && OccursAt(Lower(cut), word, i);
    assert Lower(cut) == Lower(key)[..|cut|];
    assert OccursAt(Lower(key), word, i);
  }

  /** And a body word is too short to come from truncation. */
  lemma EventPolicyOfIsStable(secrets: set<Text>, bodies: set<Text>)
    requires forall word | word in bodies :: |word| < 128
    ensures Stable(EventPolicyOf(secrets, bodies))
  {
    var p := EventPolicyOf(secrets, bodies);
    forall key | !p.drops(key) ensures !p.drops(CutKey(key, p.maxKey)) {
      assert !EventDrops(key, secrets, bodies);
      var cut := Cut(key, 128);
      if Mentions(cut, secrets) {
        CutMentionsLess(key, 128, secrets);
      }
      assert |key| > 128 ==> |Lower(cut)| == 128;
    }
  }

  lemma BodyKeysAreShort(key: Text)
    requires key in BODY_KEYS
    ensures |key| <= 7
  {
  }

  lemma PoliciesAreStable(allowed: set<Text>, includeInvitationToken: bool)
    ensures Stable(EventPolicy()) && Stable(PublicPolicy(allowed, includeInvitationToken))
  {
    forall word | word in BODY_KEYS ensures |word| < 128 {
      BodyKeysAreShort(word);
    }
    EventPolicyOfIsStable(EVENT_SECRETS, BODY_KEYS);
  }

  // ----- which keys are dropped, literally ---------------------------------

  /** The unit is the letter, or its capital; no other unit matches, as without the u flag. */
  predicate SameLetter(u: Unit, c: char) {
    || u == c as int
    || ('a' <= c <= 'z' && 'A' as int <= u <= 'Z' as int && u - 'A' as int == c as int - 'a' as int)
  }

  predicate StandsIn(key: Text, word: string, i: nat) {
    i + |word| <= |key| && forall k | 0 <= k < |word| :: SameLetter(key[i + k], word[k])
  }

  predicate Contains(key: Text, word: string) {
    exists i | 0 <= i <= |key| :: StandsIn(key, word, i)
  }

  predicate Is(key: Text, word: string) { |key| == |word| && StandsIn(key, word, 0) }

  predicate IsPlain(word: string) {
    forall k | 0 <= k < |word| :: 'a' <= word[k] <= 'z' || word[k] == '_' || word[k] == '-'
  }

  lemma OccursWhereItStands(key: Text, word: string, i: nat)
    requires IsPlain(word)
    ensures OccursAt(Lower(key), Word(word), i) <==> StandsIn(key, word, i)
  {
    if i + |word| <= |key| {
      var there := Lower(key)[i..i + |word|];
      forall k | 0 <= k < |word| ensures there[k] == Word(word)[k] <==> SameLetter(key[i + k], word[k]) {
        assert there[k] == Lower(key)[i + k];
      }
      assert there == Word(word) <==> forall k | 0 <= k < |word| :: there[k] == Word(word)[k];
    }
  }

  lemma MentionedIsContained(key: Text, word: string)
    requires IsPlain(word)
    ensures Mentions(key, {Word(word)}) <==> Contains(key, word)
  {
    forall i: nat ensures OccursAt(Lower(key), Word(word), i) <==> StandsIn(key, word, i) {
      OccursWhereItStands(key, word, i);
    }
    if Contains(key, word) {
      var i :| 0 <= i <= |key| && StandsIn(key, word, i);
      assert OccursAt(Lower(key), Word(word), i);
    }
  }

  lemma WholeKeyIs(key: Text, word: string)
    requires IsPlain(word)
    ensures Lower(key) == Word(word) <==> Is(key, word)
  {
    OccursWhereItStands(key, word, 0);
    if |key| == |word| {
      assert Lower(key)[0..|word|] == Lower(key);
    }
  }

  lemma MentionsIsAny(key: Text, words: set<Text>)
    ensures Mentions(key, words) <==> exists word | word in words :: Mentions(key, {word})
  {
    if Mentions(key, words) {
      var word, i :| word in words && 0 <= i <= |key| && OccursAt(Lower(key), word, i);
      assert Mentions(key, {word});
    }
    if word :| word in words && Mentions(key, {word}) {
      var i :| 0 <= i <= |key| && OccursAt(Lower(key), word, i);
      assert word in words;
    }
  }

  /** The event sanitizer drops exactly the keys with one of these words in them, or that are one of these names, in any case. */
  lemma EventKeysAreLiteral(key: Text)
    ensures EventPolicy().drops(key) <==>
              || Contains(key, "private") || Contains(key, "secret") || Contains(key, "credential") || Contains(key, "password")
              || Contains(key, "token") || Contains(key, "authorization") || Contains(key, "session")
              || Contains(key, "apikey") || Contains(key, "api_key") || Contains(key, "api-key")
              || Is(key, "content") || Is(key, "body") || Is(key, "prompt") || Is(key, "message") || Is(key, "text")
    ensures var p := EventPolicy(); p.maxText == 4096 && p.maxDepth == 6 && p.maxItems == 100 && p.maxKey == Some(128)
  {
    MentionsIsAny(key, EVENT_SECRETS);
    MentionedIsContained(key, "private");
    MentionedIsContained(key, "secret");
    MentionedIsContained(key, "credential");
    MentionedIsContained(key, "password");
    MentionedIsContained(key, "token");
    MentionedIsContained(key, "authorization");
    MentionedIsContained(key, "session");
    MentionedIsContained(key, "apikey");
    MentionedIsContained(key, "api_key");
    MentionedIsContained(key, "api-key");
    WholeKeyIs(key, "content");
    WholeKeyIs(key, "body");
    WholeKeyIs(key, "prompt");
    WholeKeyIs(key, "message");
    WholeKeyIs(key, "text");
  }

  /** The public sanitizer drops the same way the secrets it lists, and every key that is not allowed. */
  lemma PublicKeysAreLiteral(allowed: set<Text>, includeInvitationToken: bool, key: Text)
    ensures PublicPolicy(allowed, includeInvitationToken).drops(key) <==>
              || Contains(key, "private") || Contains(key, "secret") || Contains(key, "credential") || Contains(key, "password")
              || Contains(key, "rawtoken") || Contains(key, "raw_token") || Contains(key, "raw-token")
              || (key == Word("token") && !includeInvitationToken) || (key != Word("token") && key !in allowed)
    ensures var p := PublicPolicy(allowed, includeInvitationToken);
            p.maxText == 20_000 && p.maxDepth == 8 && p.maxItems == 1_000 && p.maxKey == None
  {
    MentionsIsAny(key, PUBLIC_SECRETS);
    MentionedIsContained(key, "private");
    MentionedIsContained(key, "secret");
    MentionedIsContained(key, "credential");
    MentionedIsContained(key, "password");
    MentionedIsContained(key, "rawtoken");
    MentionedIsContained(key, "raw_token");
    MentionedIsContained(key, "raw-token");
  }

  /** The key stands somewhere in the value. */
  predicate HasKey(v: Json, key: Text) {
    match v
    case Arr(items) => ItemsHaveKey(items, key)
    case Obj(ms) => MembersHaveKey(ms, key)
    case _ => false
  }

  predicate ItemsHaveKey(items: Items, key: Text) {
    items.Items? && (HasKey(items.first, key) || ItemsHaveKey(items.more, key))
  }

  predicate MembersHaveKey(ms: Members, key: Text) {
    ms.Members? && (ms.key == key || HasKey(ms.value, key) || MembersHaveKey(ms.rest, key))
  }

  lemma {:induction false} CleanHasNoDroppedKey(p: Policy, v: Json, depth: nat, key: Text)
    requires Clean(p, v, depth) && HasKey(v, key)
    ensures !p.drops(key)
    decreases v
  {
    match v
    case Arr(items) => CleanItemsHaveNoDroppedKey(p, items, depth + 1, key);
    case Obj(ms) => CleanMembersHaveNoDroppedKey(p, ms, depth + 1, key);
    case _ =>
  }

  lemma {:induction false} CleanItemsHaveNoDroppedKey(p: Policy, items: Items, depth: nat, key: Text)
    requires CleanItems(p, items, depth) && ItemsHaveKey(items, key)
    ensures !p.drops(key)
    decreases items
  {
    if HasKey(items.first, key) {
      CleanHasNoDroppedKey(p, items.first, depth, key);
    } else {
      CleanItemsHaveNoDroppedKey(p, items.more, depth, key);
    }
  }

  lemma {:induction false} CleanMembersHaveNoDroppedKey(p: Policy, ms: Members, depth: nat, key: Text)
    requires CleanMembers(p, ms, depth) && MembersHaveKey(ms, key)
    ensures !p.drops(key)
    decreases ms
  {
    if ms.key == key {
    } else if HasKey(ms.value, key) {
      CleanHasNoDroppedKey(p, ms.value, depth, key);
    } else {
      CleanMembersHaveNoDroppedKey(p, ms.rest, depth, key);
    }
  }

  /** No key of an event that reaches the renderer, at any depth, has a secret word in it or names a body. */
  lemma SecretsNeverCross(v: Json, key: Text)
    requires Sanitize(EventPolicy(), v, 0).Some? && HasKey(Sanitize(EventPolicy(), v, 0).value, key)
    ensures !Contains(key, "private") && !Contains(key, "secret") && !Contains(key, "credential")
    ensures !Contains(key, "password") && !Contains(key, "token") && !Contains(key, "authorization")
    ensures !Contains(key, "session") && !Contains(key, "apikey") && !Contains(key, "api_key") && !Contains(key, "api-key")
    ensures !Is(key, "content") && !Is(key, "body") && !Is(key, "prompt") && !Is(key, "message") && !Is(key, "text")
  {
    PoliciesAreStable({}, false);
    SanitizedIsClean(EventPolicy(), v, 0);
    CleanHasNoDroppedKey(EventPolicy(), Sanitize(EventPolicy(), v, 0).value, 0, key);
    EventKeysAreLiteral(key);
  }

  /** Sanitizing twice is sanitizing once, and the output is within every bound. */
  lemma SanitizerIsIdempotent(p: Policy, v: Json, depth: nat)
    requires Stable(p) && Sanitize(p, v, depth).Some?
    ensures Clean(p, Sanitize(p, v, depth).value, depth)
    ensures Sanitize(p, Sanitize(p, v, depth).value, depth) == Sanitize(p, v, depth)
  {
    SanitizedIsClean(p, v, depth);
    CleanStays(p, Sanitize(p, v, depth).value, depth);
  }

  // ----- the sanitizer as it runs ------------------------------------------

  function JoinItems(items: Items, more: Items): Items {
    if items.NoItems? then more else Items(items.first, JoinItems(items.more, more))
  }

  lemma {:induction false} JoinIsAssociative(a: Items, b: Items, c: Items)
    ensures JoinItems(JoinItems(a, b), c) == JoinItems(a, JoinItems(b, c))
    decreases a
  {
    if a.Items? {
      JoinIsAssociative(a.more, b, c);
    }
  }

  lemma {:induction false} JoinNothing(items: Items)
    ensures JoinItems(items, NoItems) == items
  {
    if items.Items? {
      JoinNothing(items.more);
    }
  }

  /** Fill a new array item by item, as far as the bound, and a new object member by member. */
  method SanitizeValue(p: Policy, v: Json, depth: nat) returns (r: Option<Json>)
    ensures r == Sanitize(p, v, depth)
    decreases v
  {
    match v
    case Null => r := Some(v);
    case Bool(_) => r := Some(v);
    case Num(_) => r := Some(v);
    case Str(s) => r := Some(Str(Cut(s, p.maxText)));
    case Unserializable => r := None;
    case Arr(items) =>
      if depth > p.maxDepth {
        return None;
      }
      var kept, left, room := NoItems, items, p.maxItems;
      while left.Items? && room > 0
        invariant JoinItems(kept, SanitizeItems(p, left, room, depth + 1)) == SanitizeItems(p, items, p.maxItems, depth + 1)
        invariant left == items || left < items
        decreases left
      {
        var sanitized := SanitizeValue(p, left.first, depth + 1);
        if sanitized.Some? {
          JoinIsAssociative(kept, Items(sanitized.value, NoItems), SanitizeItems(p, left.more, room - 1, depth + 1));
          kept := JoinItems(kept, Items(sanitized.value, NoItems));
        }
        left, room := left.more, room - 1;
      }
      JoinNothing(kept);
      r := Some(Arr(kept));
    case Obj(ms) =>
      if depth > p.maxDepth {
        return None;
      }
      var output, left := NoMembers, ms;
      while left.Members?
        invariant SanitizeInto(p, left, output, depth + 1) == SanitizeInto(p, ms, NoMembers, depth + 1)
        invariant left == ms || left < ms
        decreases left
      {
        if !p.drops(left.key) {
          var sanitized := SanitizeValue(p, left.value, depth + 1);
          if sanitized.Some? {
            output := Put(output, CutKey(left.key, p.maxKey), sanitized.value);
          }
        }
        left := left.rest;
      }
      r := Some(Obj(output));
  }
}
