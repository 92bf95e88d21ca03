/**
  JSON values, their text in a given member order, and a reader for the whole
  grammar of RFC 8259: what is rendered is read back as the same value.
 */
module JsonText {
  import opened Wrappers
  import opened JsonNumbers
  import opened JsonStrings

  datatype Json =
    | Null
    | Bool(b: bool)
    | Num(number: Number)
    | Str(text: Text)
    | Arr(items: Items)
    | Obj(members: Members)
    | Unserializable  // undefined, a function, a symbol, a big integer

  datatype Items = NoItems | Items(first: Json, more: Items)

  /** The members of an object in their insertion order. */
  datatype Members = NoMembers | Members(key: Text, value: Json, rest: Members)

  function Keys(ms: Members): set<Text> {
    if ms.NoMembers? then {} else {ms.key} + Keys(ms.rest)
  }

  function Lookup(ms: Members, key: Text): Json
    requires key in Keys(ms)
  {
    if ms.key == key then ms.value else Lookup(ms.rest, key)
  }

  /** What the language guarantees of every value: no key twice, numbers in shortest form. */
  predicate Proper(v: Json) {
    match v
    case Num(x) => x.NotFinite? || IsFinite(x)
    case Arr(items) => ProperItems(items)
    case Obj(ms) => ProperMembers(ms)
    case _ => true
  }

  predicate ProperItems(items: Items) {
    items.Items? ==> Proper(items.first) && ProperItems(items.more)
  }

  predicate ProperMembers(ms: Members) {
    ms.Members? ==> ms.key !in Keys(ms.rest) && Proper(ms.value) && ProperMembers(ms.rest)
  }

  /** No infinite number and nothing unserializable, at any depth. */
  predicate Finite(v: Json) {
    match v
    case Num(x) => !x.NotFinite?
    case Arr(items) => FiniteItems(items)
    case Obj(ms) => FiniteMembers(ms)
    case Unserializable => false
    case _ => true
  }

  predicate FiniteItems(items: Items) {
    items.Items? ==> Finite(items.first) && FiniteItems(items.more)
  }

  predicate FiniteMembers(ms: Members) {
    ms.Members? ==> Finite(ms.value) && FiniteMembers(ms.rest)
  }

  // ----- text --------------------------------------------------------------

  const COMMA: Unit := 0x2C
  const COLON: Unit := 0x3A
  const OPEN_ARRAY: Unit := 0x5B
  const CLOSE_ARRAY: Unit := 0x5D
  const OPEN_OBJECT: Unit := 0x7B
  const CLOSE_OBJECT: Unit := 0x7D
  const NULL_TEXT: Text := [0x6E, 0x75, 0x6C, 0x6C]
  const TRUE_TEXT: Text := [0x74, 0x72, 0x75, 0x65]
  const FALSE_TEXT: Text := [0x66, 0x61, 0x6C, 0x73, 0x65]

  function Join(parts: seq<Text>): Text {
    if parts == [] then []
    else if |parts| == 1 then parts[0]
    else parts[0] + ([COMMA] + Join(parts[1..]))
  }

  function MemberText(key: Text, value: Text): Text { Quoted(key) + ([COLON] + value) }

  function Render(v: Json): (t: Text)
    requires Finite(v) && Proper(v)
  {
    match v
    case Null => NULL_TEXT
    case Bool(b) => if b then TRUE_TEXT else FALSE_TEXT
    case Num(x) => NumberText(x)
    case Str(s) => Quoted(s)
    case Arr(items) => [OPEN_ARRAY] + (Join(ItemTexts(items)) + [CLOSE_ARRAY])
    case Obj(ms) => [OPEN_OBJECT] + (Join(MemberTexts(ms)) + [CLOSE_OBJECT])
  }

  function ItemTexts(items: Items): (parts: seq<Text>)
    requires FiniteItems(items) && ProperItems(items)
    ensures parts == [] <==> items.NoItems?
  {
    if items.NoItems? then [] else [Render(items.first)] + ItemTexts(items.more)
  }

  function MemberTexts(ms: Members): (parts: seq<Text>)
    requires FiniteMembers(ms) && ProperMembers(ms)
    ensures parts == [] <==> ms.NoMembers?
  {
    if ms.NoMembers? then [] else [MemberText(ms.key, Render(ms.value))] + MemberTexts(ms.rest)
  }

  // ----- reading -----------------------------------------------------------

  predicate IsSpace(u: Unit) { u in {0x20, 0x09, 0x0A, 0x0D} }

  function SkipSpace(t: Text): (r: Text)
    ensures |r| <= |t|
    ensures t == [] || !IsSpace(t[0]) ==> r == t
  {
    if t != [] && IsSpace(t[0]) then SkipSpace(t[1..]) else t
  }

  predicate StartsWith(t: Text, word: Text) { |word| <= |t| && t[..|word|] == word }

  function ReadValue(t0: Text): (r: Option<Read<Json>>)
    ensures r.Some? ==> |r.value.rest| < |t0|
    decreases |t0|, 0
  {
    var t := SkipSpace(t0);
    if t == [] then None
    else if t[0] == QUOTE then
      var s := ReadString(t);
      if s.None? then None else Some(Read(Str(s.value.value), s.value.rest))
    else if t[0] == OPEN_ARRAY then
      var inner := SkipSpace(t[1..]);
      if inner != [] && inner[0] == CLOSE_ARRAY then Some(Read(Arr(NoItems), inner[1..]))
      else
        var items := ReadItems(inner);
        if items.None? then None else Some(Read(Arr(items.value.value), items.value.rest))
    else if t[0] == OPEN_OBJECT then
      var inner := SkipSpace(t[1..]);
      if inner != [] && inner[0] == CLOSE_OBJECT then Some(Read(Obj(NoMembers), inner[1..]))
      else
        var ms := ReadMembers(inner);
        if ms.None? then None else Some(Read(Obj(ms.value.value), ms.value.rest))
    else ReadScalar(t)
  }

  function ReadScalar(t: Text): (r: Option<Read<Json>>)
    ensures r.Some? ==> |r.value.rest| < |t|
  {
    if StartsWith(t, NULL_TEXT) then Some(Read(Null, t[4..]))
    else if StartsWith(t, TRUE_TEXT) then Some(Read(Bool(true), t[4..]))
    else if StartsWith(t, FALSE_TEXT) then Some(Read(Bool(false), t[5..]))
    else
      var x := ReadNumber(t);
      if x.None? then None else Some(Read(Num(x.value.value), x.value.rest))
  }

  /** At least one item, up to and including the closing bracket. */
  function ReadItems(t: Text): (r: Option<Read<Items>>)
    ensures r.Some? ==> |r.value.rest| < |t|
    decreases |t|, 1
  {
    var first := ReadValue(t);
    if first.None? then None
    else
      var after := SkipSpace(first.value.rest);
      if after == [] then None
      else if after[0] == CLOSE_ARRAY then Some(Read(Items(first.value.value, NoItems), after[1..]))
      else if after[0] != COMMA then None
      else
        var more := ReadItems(after[1..]);
        if more.None? then None else Some(Read(Items(first.value.value, more.value.value), more.value.rest))
  }

  /** At least one member, up to and including the closing brace. */
  function ReadMembers(t: Text): (r: Option<Read<Members>>)
    ensures r.Some? ==> |r.value.rest| < |t|
    decreases |t|, 1
  {
    var key := ReadString(SkipSpace(t));
    if key.None? then None
    else
      var colon := SkipSpace(key.value.rest);
      if colon == [] || colon[0] != COLON then None
      else
        var value := ReadValue(colon[1..]);
        if value.None? then None
        else
          var after := SkipSpace(value.value.rest);
          if after == [] then None
          else if after[0] == CLOSE_OBJECT then
            Some(Read(Members(key.value.value, value.value.value, NoMembers), after[1..]))
          else if after[0] != COMMA then None
          else
            var rest := ReadMembers(after[1..]);
            if rest.None? then None
            else Some(Read(Members(key.value.value, value.value.value, rest.value.value), rest.value.rest))
  }

  /** A whole JSON text. */
  function Parse(t: Text): Option<Json> {
    var v := ReadValue(t);
    if v.None? || SkipSpace(v.value.rest) != [] then None else Some(v.value.value)
  }

  // ----- reading what was rendered -----------------------------------------

  predicate StartsValue(u: Unit) {
    !IsSpace(u) && u !in {COMMA, COLON, CLOSE_ARRAY, CLOSE_OBJECT}
  }

  lemma RenderStarts(v: Json)
    requires Finite(v) && Proper(v)
    ensures Render(v) != [] && StartsValue(Render(v)[0])
  {
    if v.Num? {
      NumberStarts(v.number);
    }
  }

  lemma NumberStarts(x: Number)
    requires IsFinite(x)
    ensures NumberText(x) != [] && (IsDigit(NumberText(x)[0]) || NumberText(x)[0] == MINUS)
  {
    DigitTextStart(LayoutOf(x).whole);
  }

  lemma WordStarts(word: Text, rest: Text, other: Text)
    requires word != [] && other != []
    ensures StartsWith(word + rest, word) && (word + rest)[|word|..] == rest && (word + rest)[0] == word[0]
    ensures word[0] != other[0] ==> !StartsWith(word + rest, other)
  {
    assert (word + rest)[..|word|] == word;
    if StartsWith(word + rest, other) {
      assert (word + rest)[..|other|][0] == word[0];
    }
  }

  lemma ScalarReadsBack(v: Json, rest: Text)
    requires Proper(v) && Finite(v) && Ends(rest) && (v.Null? || v.Bool? || v.Num?)
    ensures ReadValue(Render(v) + rest) == Some(Read(v, rest))
  {
    var word: Text := Render(v);
    if v.Num? {
      NumberStarts(v.number);
      NumberReadsBack(v.number, rest);
    } else {
      assert word == NULL_TEXT || word == TRUE_TEXT || word == FALSE_TEXT;
    }
    WordStarts(word, rest, NULL_TEXT);
    WordStarts(word, rest, TRUE_TEXT);
    WordStarts(word, rest, FALSE_TEXT);
    ScalarIsRead(word + rest);
  }

  lemma ScalarIsRead(t: Text)
    requires t != [] && !IsSpace(t[0]) && t[0] !in {QUOTE, OPEN_ARRAY, OPEN_OBJECT}
    ensures ReadValue(t) == ReadScalar(t)
  {
  }

  lemma JoinMore(part: Text, parts: seq<Text>)
    ensures Join([part] + parts) == if parts == [] then part else part + ([COMMA] + Join(parts))
  {
    assert ([part] + parts)[1..] == parts;
  }

  lemma ValueReadsBack(v: Json, rest: Text)
    requires Finite(v) && Proper(v) && Ends(rest)
    ensures ReadValue(Render(v) + rest) == Some(Read(v, rest))
    decreases v, 1
  {
    match v
    case Str(s) =>
      StringReadsBack(s, rest);
      assert (Quoted(s) + rest)[0] == QUOTE;
    case Arr(items) => ArrayReadsBack(items, rest);
    case Obj(ms) => ObjectReadsBack(ms, rest);
    case _ => ScalarReadsBack(v, rest);
  }

  lemma ArrayReadsBack(items: Items, rest: Text)
    requires FiniteItems(items) && ProperItems(items)
    ensures ReadValue(Render(Arr(items)) + rest) == Some(Read(Arr(items), rest))
    decreases items, 2
  {
    var inner := Join(ItemTexts(items)) + ([CLOSE_ARRAY] + rest);
    Assoc([OPEN_ARRAY], Join(ItemTexts(items)) + [CLOSE_ARRAY], rest);
    Assoc(Join(ItemTexts(items)), [CLOSE_ARRAY], rest);
    var t := Render(Arr(items)) + rest;
    assert t == [OPEN_ARRAY] + inner;
    assert t[0] == OPEN_ARRAY && t[1..] == inner;
    if items.NoItems? {
      assert inner == [CLOSE_ARRAY] + rest;
      assert inner[1..] == rest;
    } else {
      ItemsReadBack(items, rest);
      RenderStarts(items.first);
      JoinMore(Render(items.first), ItemTexts(items.more));
      assert inner[0] == Render(items.first)[0];
    }
  }

  lemma ItemsReadBack(items: Items, rest: Text)
    requires items.Items? && FiniteItems(items) && ProperItems(items)
    ensures ReadItems(Join(ItemTexts(items)) + ([CLOSE_ARRAY] + rest)) == Some(Read(items, rest))
    decreases items, 1
  {
    var first, parts, end := Render(items.first), ItemTexts(items.more), [CLOSE_ARRAY] + rest;
    JoinMore(first, parts);
    if parts == [] {
      ValueReadsBack(items.first, end);
      assert end[1..] == rest;
    } else {
      ItemsReadBack(items.more, rest);
      var tail := Join(parts) + end;
      Assoc(first, [COMMA] + Join(parts), end);
      Assoc([COMMA], Join(parts), end);
      OneMoreItem(items.first, items.more, tail, rest);
    }
  }

  lemma OneMoreItem(v: Json, more: Items, tail: Text, rest: Text)
    requires Finite(v) && Proper(v) && ReadItems(tail) == Some(Read(more, rest))
    ensures ReadItems(Render(v) + ([COMMA] + tail)) == Some(Read(Items(v, more), rest))
    decreases v, 3
  {
    ValueReadsBack(v, [COMMA] + tail);
    assert ([COMMA] + tail)[1..] == tail;
  }

  lemma ObjectReadsBack(ms: Members, rest: Text)
    requires FiniteMembers(ms) && ProperMembers(ms)
    ensures ReadValue(Render(Obj(ms)) + rest) == Some(Read(Obj(ms), rest))
    decreases ms, 2
  {
    var inner := Join(MemberTexts(ms)) + ([CLOSE_OBJECT] + rest);
    Assoc([OPEN_OBJECT], Join(MemberTexts(ms)) + [CLOSE_OBJECT], rest);
    Assoc(Join(MemberTexts(ms)), [CLOSE_OBJECT], rest);
    var t := Render(Obj(ms)) + rest;
    assert t == [OPEN_OBJECT] + inner;
    assert t[0] == OPEN_OBJECT && t[1..] == inner;
    if ms.NoMembers? {
      assert inner == [CLOSE_OBJECT] + rest;
      assert inner[1..] == rest;
    } else {
      MembersReadBack(ms, rest);
      JoinMore(MemberText(ms.key, Render(ms.value)), MemberTexts(ms.rest));
      assert inner[0] == QUOTE;
    }
  }

  lemma MembersReadBack(ms: Members, rest: Text)
    requires ms.Members? && FiniteMembers(ms) && ProperMembers(ms)
    ensures ReadMembers(Join(MemberTexts(ms)) + ([CLOSE_OBJECT] + rest)) == Some(Read(ms, rest))
    decreases ms, 1
  {
    var first, parts, end := MemberText(ms.key, Render(ms.value)), MemberTexts(ms.rest), [CLOSE_OBJECT] + rest;
    JoinMore(first, parts);
    if parts == [] {
      MemberReadsBack(ms.key, ms.value, end);
      assert end[1..] == rest;
    } else {
      MembersReadBack(ms.rest, rest);
      var tail := Join(parts) + end;
      Assoc(first, [COMMA] + Join(parts), end);
      Assoc([COMMA], Join(parts), end);
      OneMoreMember(ms.key, ms.value, ms.rest, tail, rest);
    }
  }

  lemma OneMoreMember(key: Text, v: Json, more: Members, tail: Text, rest: Text)
    requires Finite(v) && Proper(v) && ReadMembers(tail) == Some(Read(more, rest))
    ensures ReadMembers(MemberText(key, Render(v)) + ([COMMA] + tail)) == Some(Read(Members(key, v, more), rest))
    decreases v, 3
  {
    MemberReadsBack(key, v, [COMMA] + tail);
    assert ([COMMA] + tail)[1..] == tail;
  }

  /** One member: its key, the colon, and its value. */
  lemma MemberReadsBack(key: Text, v: Json, rest: Text)
    requires Finite(v) && Proper(v) && Ends(rest)
    ensures var t := MemberText(key, Render(v)) + rest;
            && SkipSpace(t) == t
            && ReadString(t) == Some(Read(key, [COLON] + (Render(v) + rest)))
            && ReadValue(([COLON] + (Render(v) + rest))[1..]) == Some(Read(v, rest))
    decreases v, 2
  {
    var after := [COLON] + (Render(v) + rest);
    Assoc(Quoted(key), [COLON] + Render(v), rest);
    Assoc([COLON], Render(v), rest);
    StringReadsBack(key, after);
    assert (Quoted(key) + after)[0] == QUOTE;
    assert after[1..] == Render(v) + rest;
    ValueReadsBack(v, rest);
  }

  /** Reading a rendered value gives back that very value. */
  lemma ParseRendered(v: Json)
    requires Finite(v) && Proper(v)
    ensures Parse(Render(v)) == Some(v)
  {
    ValueReadsBack(v, []);
    assert Render(v) + [] == Render(v);
  }

  /** The words and the punctuation, literally. */
  lemma RenderIsLiteral(v: Json)
    requires Finite(v) && Proper(v)
    ensures v.Null? ==> Render(v) == Ascii("null")
    ensures v.Bool? ==> Render(v) == Ascii(if v.b then "true" else "false")
    ensures v.Arr? ==> Render(v) == Ascii("[") + (Join(ItemTexts(v.items)) + Ascii("]"))
    ensures v.Obj? ==> Render(v) == Ascii("{") + (Join(MemberTexts(v.members)) + Ascii("}"))
    ensures forall key, value :: MemberText(key, value) == Quoted(key) + (Ascii(":") + value)
    ensures forall parts | |parts| > 1 :: Join(parts) == parts[0] + (Ascii(",") + Join(parts[1..]))
  {
    assert Ascii("[") == [OPEN_ARRAY] && Ascii("]") == [CLOSE_ARRAY] && Ascii(",") == [COMMA];
    assert Ascii("{") == [OPEN_OBJECT] && Ascii("}") == [CLOSE_OBJECT] && Ascii(":") == [COLON];
    assert Ascii("null") == NULL_TEXT && Ascii("true") == TRUE_TEXT && Ascii("false") == FALSE_TEXT;
  }
}
