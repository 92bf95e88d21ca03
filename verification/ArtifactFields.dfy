/** The fields of an Artifact response: how each is read, and when several names agree. */
module ArtifactFields {
  import opened Wrappers
  import opened Utf8
  import Decimals

  type Text = seq<Unit>

  /** A value as it came out of JSON.parse; `Fraction` is any number that is no integer. */
  datatype Value =
    | Undefined
    | Null
    | Bool(b: bool)
    | Num(n: int)
    | Fraction
    | Str(text: Text)
    | List(items: seq<Value>)
    | Record(fields: map<string, Value>)

  type Fields = map<string, Value>

  datatype Encoding = Utf8Text | Binary

  /** What the caller asked for. */
  datatype Scope = Scope(workspaceId: Option<Text>, roomId: Text, artifactId: Text, revisionId: Option<Text>)

  const MAX_BYTES := 8 * 1024 * 1024

  function Field(fields: Fields, key: string): Value {
    if key in fields then fields[key] else Undefined
  }

  function Ascii(s: string): (t: Text)
    ensures |t| == |s| && forall i | 0 <= i < |s| && s[i] <= '~' :: t[i] == s[i] as int
  {
    seq(|s|, i requires 0 <= i < |s| => if s[i] <= '~' then AsUnit(s[i] as int) else AsUnit(0))
  }

  // ----- single fields -----------------------------------------------------

  function AsRecord(v: Value, code: string): Result<Fields> {
    if v.Record? then Ok(v.fields) else Err(code)
  }

  predicate IsAlnum(u: Unit) { 0x30 <= u <= 0x39 || 0x41 <= u <= 0x5A || 0x61 <= u <= 0x7A }

  predicate IsOpaqueId(t: Text) {
    1 <= |t| <= 128 && IsAlnum(t[0])
    && forall i | 1 <= i < |t| :: IsAlnum(t[i]) || t[i] in {0x2E, 0x5F, 0x3A, 0x2D}
  }

  function OpaqueId(v: Value, code: string): Result<Text> {
    if v.Str? && IsOpaqueId(v.text) then Ok(v.text) else Err(code)
  }

  function OptionalOpaqueId(v: Value, code: string): Result<Option<Text>> {
    if v.Undefined? then Ok(None)
    else if OpaqueId(v, code).Ok? then Ok(Some(OpaqueId(v, code).value)) else Err(code)
  }

  predicate IsBlank(u: Unit) {
    0x09 <= u <= 0x0D || 0x2000 <= u <= 0x200A
    || u in {0x20, 0xA0, 0x1680, 0x2028, 0x2029, 0x202F, 0x205F, 0x3000, 0xFEFF}
  }

  function TrimStart(t: Text): Text {
    if t != [] && IsBlank(t[0]) then TrimStart(t[1..]) else t
  }

  function TrimEnd(t: Text): Text {
    if t != [] && IsBlank(t[|t| - 1]) then TrimEnd(t[..|t| - 1]) else t
  }

  /** Lower case as far as it can matter here: only the Kelvin sign becomes an ASCII letter. */
  function LowerUnit(u: Unit): Unit {
    if 0x41 <= u <= 0x5A then AsUnit(u as int + 32) else if u == 0x212A then 0x6B else u
  }

  function Lower(t: Text): Text { seq(|t|, i requires 0 <= i < |t| => LowerUnit(t[i])) }

  predicate IsMimeUnit(u: Unit) {
    IsAlnum(u) || u in {0x21, 0x23, 0x24, 0x26, 0x5E, 0x5F, 0x2E, 0x2B, 0x2D}
  }

  const SLASH: Unit := 0x2F

  predicate IsMimeType(t: Text) {
    exists i :: 0 < i < |t| - 1 && t[i] == SLASH
                && (forall j | 0 <= j < |t| && j != i :: IsMimeUnit(t[j]))
  }

  function MimeType(v: Value, code: string): Result<Text> {
    if !v.Str? then Err(code)
    else
      var normal := Lower(TrimStart(TrimEnd(v.text)));
      if IsMimeType(normal) then Ok(normal) else Err(code)
  }

  function UpTo(t: Text, u: Unit): Text {
    if t == [] || t[0] == u then [] else [t[0]] + UpTo(t[1..], u)
  }

  const SEMICOLON: Unit := 0x3B

  function HeaderMimeType(v: Value, code: string): Result<Text> {
    if v.Str? then MimeType(Str(UpTo(v.text, SEMICOLON)), code) else Err(code)
  }

  function EncodingOf(v: Value, code: string): Result<Encoding> {
    if v == Str(Ascii("utf8")) then Ok(Utf8Text)
    else if v == Str(Ascii("binary")) then Ok(Binary)
    else Err(code)
  }

  function ByteSize(v: Value, code: string): Result<nat> {
    if v.Num? && 0 <= v.n <= MAX_BYTES then Ok(v.n) else Err(code)
  }

  predicate IsHexUnit(u: Unit) { 0x30 <= u <= 0x39 || 0x61 <= u <= 0x66 }

  predicate IsDigestText(t: Text) { |t| == 64 && forall i | 0 <= i < |t| :: IsHexUnit(t[i]) }

  function ContentHash(v: Value, code: string): Result<Text> {
    if v.Str? && IsDigestText(Lower(v.text)) then Ok(Lower(v.text)) else Err(code)
  }

  predicate IsDecimal(t: Text) {
    t != [] && (forall i | 0 <= i < |t| :: 0x30 <= t[i] <= 0x39) && (t[0] == 0x30 ==> |t| == 1)
  }

  function DecimalValue(t: Text): nat
    requires forall i | 0 <= i < |t| :: 0x30 <= t[i] <= 0x39
  {
    if t == [] then 0 else DecimalValue(t[..|t| - 1]) * 10 + (t[|t| - 1] as int - 0x30)
  }

  function HeaderByteSize(v: Value): Result<nat> {
    if !v.Str? || !IsDecimal(v.text) then Err("workspace_artifact_content_transport_invalid")
    else if DecimalValue(v.text) > MAX_BYTES then Err("workspace_artifact_content_too_large")
    else Ok(DecimalValue(v.text))
  }

  predicate IsByte(v: Value) { v.Num? && 0 <= v.n < 256 }

  function ByteOf(v: Value): Byte
    requires IsByte(v)
  {
    v.n
  }

  function Bytes(v: Value, code: string): Result<seq<Byte>> {
    if !v.List? then Err(code)
    else if |v.items| > MAX_BYTES then Err("workspace_artifact_content_too_large")
    else if exists i :: 0 <= i < |v.items| && !IsByte(v.items[i]) then Err(code)
    else Ok(seq(|v.items|, i requires 0 <= i < |v.items| => ByteOf(v.items[i])))
  }

  function BytesValue(bytes: seq<Byte>): Value { List(seq(|bytes|, i requires 0 <= i < |bytes| => Num(bytes[i]))) }

  // ----- fields given under several names ----------------------------------

  /** The value that every given one of `keys` stands for; at least one must be given. */
  function Declared<T(==)>(fields: Fields, keys: seq<string>, norm: (Value, string) -> Result<T>, code: string): Result<T> {
    var values :- NormalizeAll(fields, keys, norm, code);
    if values == [] || (exists i :: 0 <= i < |values| && values[i] != values[0]) then Err(code) else Ok(values[0])
  }

  function NormalizeAll<T>(fields: Fields, keys: seq<string>, norm: (Value, string) -> Result<T>, code: string): Result<seq<T>> {
    if keys == [] then Ok([])
    else
      var v := Field(fields, keys[0]);
      if v.Undefined? then NormalizeAll(fields, keys[1..], norm, code)
      else
        var first :- norm(v, code);
        var more :- NormalizeAll(fields, keys[1..], norm, code);
        Ok([first] + more)
  }

  predicate Agrees<T(==)>(v: Value, norm: (Value, string) -> Result<T>, code: string, x: T) {
    v.Undefined? || norm(v, code) == Ok(x)
  }

  predicate AllAgree<T(==)>(fields: Fields, keys: seq<string>, norm: (Value, string) -> Result<T>, code: string, x: T) {
    forall i | 0 <= i < |keys| :: Agrees(Field(fields, keys[i]), norm, code, x)
  }

  predicate AnyGiven(fields: Fields, keys: seq<string>) {
    exists i :: 0 <= i < |keys| && !Field(fields, keys[i]).Undefined?
  }

  /** What `Declared` promises: some key is given, and all given ones mean `x`. */
  predicate Says<T(==)>(fields: Fields, keys: seq<string>, norm: (Value, string) -> Result<T>, code: string, x: T) {
    AnyGiven(fields, keys) && AllAgree(fields, keys, norm, code, x)
  }

  lemma {:induction false} NormalizeAllMeans<T>(
    fields: Fields, keys: seq<string>, norm: (Value, string) -> Result<T>, code: string, x: T)
    ensures var values := NormalizeAll(fields, keys, norm, code);
            && (AllAgree(fields, keys, norm, code, x) <==> values.Ok? && AllAre(values.value, x))
            && (values.Ok? ==> (values.value != [] <==> AnyGiven(fields, keys)))
  {
    if keys != [] {
      NormalizeAllMeans(fields, keys[1..], norm, code, x);
      var v := Field(fields, keys[0]);
      var all, rest := NormalizeAll(fields, keys, norm, code), NormalizeAll(fields, keys[1..], norm, code);
      assert forall i | 0 < i < |keys| :: keys[i] == keys[1..][i - 1];
      assert AllAgree(fields, keys, norm, code, x) <==>
        Agrees(v, norm, code, x) && AllAgree(fields, keys[1..], norm, code, x) by {
        assert forall i | 0 <= i < |keys[1..]| :: keys[1..][i] == keys[i + 1];
      }
      assert AnyGiven(fields, keys) <==> !v.Undefined? || AnyGiven(fields, keys[1..]) by {
        assert forall i | 0 <= i < |keys[1..]| :: keys[1..][i] == keys[i + 1];
      }
      if !v.Undefined? && norm(v, code).Ok? && rest.Ok? {
        AllAreMore(norm(v, code).value, rest.value, x);
      }
    }
  }

  predicate AllAre<T(==)>(values: seq<T>, x: T) { forall i | 0 <= i < |values| :: values[i] == x }

  lemma AllAreMore<T>(first: T, more: seq<T>, x: T)
    ensures AllAre([first] + more, x) <==> first == x && AllAre(more, x)
  {
    var values := [first] + more;
    assert values[0] == first;
    assert forall i | 0 <= i < |more| :: more[i] == values[i + 1];
  }

  lemma DeclaredMeans<T>(fields: Fields, keys: seq<string>, norm: (Value, string) -> Result<T>, code: string, x: T)
    ensures Declared(fields, keys, norm, code) == Ok(x) <==> Says(fields, keys, norm, code, x)
  {
    NormalizeAllMeans(fields, keys, norm, code, x);
    var values := NormalizeAll(fields, keys, norm, code);
    if Declared(fields, keys, norm, code) == Ok(x) {
      assert forall i | 0 <= i < |values.value| :: values.value[i] == x;
    }
  }

  // ----- what a field means, literally -------------------------------------

  /** A letter or digit, then at most 127 more, or dots, underscores, colons and hyphens. */
  predicate IsIdText(t: Text) {
    && 1 <= |t| <= 128
    && forall i | 0 <= i < |t| ::
         || '0' as int <= t[i] <= '9' as int || 'A' as int <= t[i] <= 'Z' as int || 'a' as int <= t[i] <= 'z' as int
         || (i > 0 && t[i] in Ascii("._:-"))
  }

  predicate SpellsEncoding(v: Value, e: Encoding) {
    v == Str(Ascii(if e.Utf8Text? then "utf8" else "binary"))
  }

  predicate SpellsSize(v: Value, n: nat) { v == Num(n) && n <= 8 * 1024 * 1024 }

  /** The size in a header: a decimal without leading zeros. */
  predicate SpellsHeaderSize(v: Value, n: nat) {
    v == Str(Ascii(Decimals.Decimal(n))) && n <= 8 * 1024 * 1024
  }

  /** `m` is `u`, or the small letter to the capital `u`; the Kelvin sign is a capital k. */
  predicate SameLetter(u: Unit, m: Unit) {
    || u == m || (u == 0x212A && m == 'k' as int)
    || ('A' as int <= u <= 'Z' as int && m - 'a' as int == u - 'A' as int)
  }

  predicate UpToCase(t: Text, m: Text) {
    |t| == |m| && forall i | 0 <= i < |t| :: SameLetter(t[i], m[i])
  }

  predicate IsHexText(t: Text) {
    |t| == 64 && forall i | 0 <= i < 64 :: '0' as int <= t[i] <= '9' as int || 'a' as int <= t[i] <= 'f' as int
  }

  predicate SpellsHash(v: Value, hash: Text) {
    v.Str? && IsHexText(hash) && UpToCase(v.text, hash)
  }

  /** WhiteSpace and LineTerminator, sections 12.2 and 12.3 of ECMA-262. */
  const BLANKS: seq<Unit> :=
    [0x09, 0x0A, 0x0B, 0x0C, 0x0D, 0x20, 0xA0, 0x1680, 0x2000, 0x2001, 0x2002, 0x2003, 0x2004, 0x2005, 0x2006, 0x2007,
     0x2008, 0x2009, 0x200A, 0x2028, 0x2029, 0x202F, 0x205F, 0x3000, 0xFEFF]

  predicate Blank(t: Text, lo: nat, hi: nat)
    requires lo <= hi <= |t|
  {
    forall k | lo <= k < hi :: t[k] in BLANKS
  }

  predicate IsNameUnit(u: Unit) {
    'a' as int <= u <= 'z' as int || '0' as int <= u <= '9' as int || u in Ascii("!#$&^_.+-")
  }

  /** Two names with a slash between them, in small letters. */
  predicate IsMimeName(m: Text) {
    exists i | 0 < i < |m| - 1 :: m[i] == '/' as int && forall j | 0 <= j < |m| && j != i :: IsNameUnit(m[j])
  }

  /** Between blanks, and up to case, the text is the type. */
  predicate SpellsMime(t: Text, m: Text) {
    && IsMimeName(m)
    && exists i | 0 <= i <= |t| - |m| :: StandsAt(t, i, m)
  }

  predicate StandsAt(t: Text, i: nat, m: Text)
    requires i + |m| <= |t|
  {
    Blank(t, 0, i) && UpToCase(t[i..i + |m|], m) && Blank(t, i + |m|, |t|)
  }

  predicate SpellsMimeType(v: Value, m: Text) { v.Str? && SpellsMime(v.text, m) }

  /** In a header, whatever follows the first semicolon is left away. */
  predicate SpellsHeaderMime(v: Value, m: Text) {
    && v.Str?
    && exists n | 0 <= n <= |v.text| ::
         && (n < |v.text| ==> v.text[n] == ';' as int) && (forall k | 0 <= k < n :: v.text[k] != ';' as int)
         && SpellsMime(v.text[..n], m)
  }

  predicate SpellsBytes(v: Value, bytes: seq<Byte>) {
    v == BytesValue(bytes) && |bytes| <= 8 * 1024 * 1024
  }

  /** Some key is given, and every given one means `x`. */
  predicate Tells<T>(fields: Fields, keys: seq<string>, means: (Value, T) -> bool, x: T) {
    && (exists i | 0 <= i < |keys| :: !Field(fields, keys[i]).Undefined?)
    && forall i | 0 <= i < |keys| :: Field(fields, keys[i]).Undefined? || means(Field(fields, keys[i]), x)
  }

  // ----- every field is read as it is meant --------------------------------

  lemma IdIsMeant(t: Text)
    ensures IsOpaqueId(t) <==> IsIdText(t)
  {
    assert Ascii("._:-") == [0x2E, 0x5F, 0x3A, 0x2D];
  }

  lemma EncodingIsMeant(v: Value, code: string, e: Encoding)
    ensures EncodingOf(v, code) == Ok(e) <==> SpellsEncoding(v, e)
  {
    assert Ascii("utf8")[0] == 'u' as int && Ascii("binary")[0] == 'b' as int;
  }

  lemma SizeIsMeant(v: Value, code: string, n: nat)
    ensures ByteSize(v, code) == Ok(n) <==> SpellsSize(v, n)
  {
  }

  lemma LowerIsUpToCase(t: Text, m: Text)
    requires forall i | 0 <= i < |m| :: !('A' as int <= m[i] <= 'Z' as int) && m[i] != 0x212A
    ensures Lower(t) == m <==> UpToCase(t, m)
  {
    if UpToCase(t, m) {
      assert forall i | 0 <= i < |t| :: SameLetter(t[i], m[i]) && Lower(t)[i] == m[i];
    }
    if Lower(t) == m {
      assert forall i | 0 <= i < |t| :: Lower(t)[i] == LowerUnit(t[i]);
    }
  }

  lemma HashIsMeant(v: Value, code: string, hash: Text)
    ensures ContentHash(v, code) == Ok(hash) <==> SpellsHash(v, hash)
  {
    if v.Str? {
      assert IsDigestText(hash) <==> IsHexText(hash);
      if IsHexText(hash) {
        LowerIsUpToCase(v.text, hash);
      }
    }
  }

  lemma BytesAreMeant(v: Value, code: string, bytes: seq<Byte>)
    ensures Bytes(v, code) == Ok(bytes) <==> SpellsBytes(v, bytes)
  {
    if SpellsBytes(v, bytes) {
      assert forall i | 0 <= i < |bytes| :: v.items[i] == Num(bytes[i]);
      assert Bytes(v, code).Ok? && Bytes(v, code).value == bytes;
    }
    if Bytes(v, code) == Ok(bytes) {
      assert forall i | 0 <= i < |bytes| :: v.items[i] == Num(bytes[i]);
      assert v.items == BytesValue(bytes).items;
    }
  }

  lemma BlankIsListed(u: Unit)
    ensures IsBlank(u) <==> u in BLANKS
  {
  }

  lemma {:induction false} TrimStartCuts(t: Text, i: nat)
    requires i < |t| && Blank(t, 0, i) && t[i] !in BLANKS
    ensures TrimStart(t) == t[i..]
  {
    BlankIsListed(t[0]);
    if i > 0 {
      assert forall k | 0 <= k < |t| - 1 :: t[1..][k] == t[k + 1];
      TrimStartCuts(t[1..], i - 1);
    }
  }

  lemma {:induction false} TrimEndCuts(t: Text, j: nat)
    requires 0 < j <= |t| && t[j - 1] !in BLANKS && Blank(t, j, |t|)
    ensures TrimEnd(t) == t[..j]
  {
    BlankIsListed(t[|t| - 1]);
    if j < |t| {
      var s := t[..|t| - 1];
      TrimEndCuts(s, j);
      assert s[..j] == t[..j];
    } else {
      assert t[..j] == t;
    }
  }

  lemma BlankStart(t: Text, i: nat)
    requires i < |t| && t[0] in BLANKS && Blank(t[1..], 0, i)
    ensures Blank(t, 0, i + 1) && t[1..][i..] == t[i + 1..]
  {
    assert forall k | 1 <= k <= i :: t[k] == t[1..][k - 1];
  }

  lemma {:induction false} TrimStartIsSuffix(t: Text) returns (i: nat)
    ensures i <= |t| && TrimStart(t) == t[i..] && Blank(t, 0, i)
  {
    i := 0;
    if t != [] && IsBlank(t[0]) {
      BlankIsListed(t[0]);
      i := TrimStartIsSuffix(t[1..]);
      BlankStart(t, i);
      i := i + 1;
    }
  }

  lemma BlankEnd(t: Text, k: nat)
    requires k < |t| && t[|t| - 1] in BLANKS && Blank(t[..|t| - 1], k, |t| - 1)
    ensures Blank(t, k, |t|) && t[..|t| - 1][..k] == t[..k]
  {
    assert forall i | 0 <= i < |t| - 1 :: t[i] == t[..|t| - 1][i];
  }

  lemma {:induction false} TrimEndIsPrefix(t: Text) returns (j: nat)
    ensures j <= |t| && TrimEnd(t) == t[..j] && Blank(t, j, |t|)
  {
    j := |t|;
    if t != [] && IsBlank(t[|t| - 1]) {
      BlankIsListed(t[|t| - 1]);
      j := TrimEndIsPrefix(t[..|t| - 1]);
      BlankEnd(t, j);
    } else {
      assert t[..j] == t;
    }
  }

  lemma NameUnitIsMime(u: Unit)
    requires !('A' as int <= u <= 'Z' as int)
    ensures IsMimeUnit(u) <==> IsNameUnit(u)
  {
    assert Ascii("!#$&^_.+-") == [0x21, 0x23, 0x24, 0x26, 0x5E, 0x5F, 0x2E, 0x2B, 0x2D];
  }

  lemma NamesAreSmall(m: Text)
    requires IsMimeName(m)
    ensures forall i | 0 <= i < |m| :: !('A' as int <= m[i] <= 'Z' as int) && m[i] != 0x212A && m[i] < 0x7F && m[i] > 0x20
    ensures |m| >= 3
  {
    assert Ascii("!#$&^_.+-") == [0x21, 0x23, 0x24, 0x26, 0x5E, 0x5F, 0x2E, 0x2B, 0x2D];
  }

  lemma MimeNameIsMimeType(m: Text)
    requires forall i | 0 <= i < |m| :: !('A' as int <= m[i] <= 'Z' as int)
    ensures IsMimeType(m) <==> IsMimeName(m)
  {
    forall i | 0 <= i < |m| ensures IsMimeUnit(m[i]) <==> IsNameUnit(m[i]) {
      NameUnitIsMime(m[i]);
    }
  }

  lemma VisibleIsNoBlank(u: Unit, m: Unit)
    requires SameLetter(u, m) && 0x20 < m < 0x7F
    ensures u !in BLANKS
  {
  }

  lemma MimeIsMeant(t: Text, code: string, m: Text)
    ensures MimeType(Str(t), code) == Ok(m) <==> SpellsMime(t, m)
  {
    if SpellsMime(t, m) {
      SpelledMimeIsRead(t, code, m);
    }
    if MimeType(Str(t), code) == Ok(m) {
      ReadMimeIsSpelled(t, code, m);
    }
  }

  /** Trimming leaves what stands between blanks, if it begins and ends visibly. */
  lemma TrimmingCuts(t: Text, i: nat, j: nat)
    requires i < j <= |t| && Blank(t, 0, i) && Blank(t, j, |t|) && t[i] !in BLANKS && t[j - 1] !in BLANKS
    ensures TrimStart(TrimEnd(t)) == t[i..j]
  {
    TrimEndCuts(t, j);
    TrimStartCuts(t[..j], i);
    assert t[..j][i..] == t[i..j];
  }

  lemma PartOfPart(t: Text, j: nat, i: nat)
    requires i <= j <= |t| && Blank(t[..j], 0, i)
    ensures t[..j][i..] == t[i..j] && Blank(t, 0, i)
  {
    assert forall k | 0 <= k < i :: t[k] == t[..j][k];
  }

  lemma TrimmingIsBetweenBlanks(t: Text) returns (i: nat)
    ensures var core := TrimStart(TrimEnd(t));
            && i + |core| <= |t| && core == t[i..i + |core|] && Blank(t, 0, i) && Blank(t, i + |core|, |t|)
  {
    var j := TrimEndIsPrefix(t);
    i := TrimStartIsSuffix(t[..j]);
    PartOfPart(t, j, i);
  }

  lemma NameIsVisible(t: Text, i: nat, m: Text)
    requires i + |m| <= |t| && IsMimeName(m) && StandsAt(t, i, m)
    ensures |m| > 0 && t[i] !in BLANKS && t[i + |m| - 1] !in BLANKS
  {
    var core := t[i..i + |m|];
    NamesAreSmall(m);
    VisibleIsNoBlank(core[0], m[0]);
    VisibleIsNoBlank(core[|m| - 1], m[|m| - 1]);
  }

  function Core(t: Text): Text { TrimStart(TrimEnd(t)) }

  lemma NameIsRead(core: Text, m: Text)
    requires UpToCase(core, m) && IsMimeName(m)
    ensures Lower(core) == m && IsMimeType(m)
  {
    NamesAreSmall(m);
    LowerIsUpToCase(core, m);
    MimeNameIsMimeType(m);
  }

  lemma SpelledIsCore(t: Text, i: nat, m: Text)
    requires i + |m| <= |t| && IsMimeName(m) && StandsAt(t, i, m)
    ensures UpToCase(Core(t), m)
  {
    NameIsVisible(t, i, m);
    TrimmingCuts(t, i, i + |m|);
  }

  lemma SpelledMimeIsRead(t: Text, code: string, m: Text)
    requires SpellsMime(t, m)
    ensures MimeType(Str(t), code) == Ok(m)
  {
    var i :| 0 <= i <= |t| - |m| && StandsAt(t, i, m);
    SpelledIsCore(t, i, m);
    NameIsRead(Core(t), m);
  }

  lemma LowerHasNoCapitals(t: Text)
    ensures forall k | 0 <= k < |Lower(t)| :: !('A' as int <= Lower(t)[k] <= 'Z' as int) && Lower(t)[k] != 0x212A
  {
  }

  lemma ReadIsName(core: Text, m: Text)
    requires Lower(core) == m && IsMimeType(m)
    ensures UpToCase(core, m) && IsMimeName(m)
  {
    LowerHasNoCapitals(core);
    LowerIsUpToCase(core, m);
    MimeNameIsMimeType(m);
  }

  lemma CoreIsSpelled(t: Text, m: Text)
    requires UpToCase(Core(t), m)
    ensures exists i | 0 <= i <= |t| - |m| :: StandsAt(t, i, m)
  {
    var i := TrimmingIsBetweenBlanks(t);
    assert StandsAt(t, i, m);
  }

  lemma ReadMimeIsSpelled(t: Text, code: string, m: Text)
    requires MimeType(Str(t), code) == Ok(m)
    ensures SpellsMime(t, m)
  {
    ReadIsName(Core(t), m);
    CoreIsSpelled(t, m);
  }

  lemma {:induction false} UpToCuts(t: Text, u: Unit)
    ensures |UpTo(t, u)| <= |t| && UpTo(t, u) == t[..|UpTo(t, u)|]
    ensures forall k | 0 <= k < |UpTo(t, u)| :: t[k] != u
    ensures |UpTo(t, u)| < |t| ==> t[|UpTo(t, u)|] == u
  {
    if t != [] && t[0] != u {
      UpToCuts(t[1..], u);
    }
  }

  lemma MimeTypeIsMeant(v: Value, code: string, m: Text)
    ensures MimeType(v, code) == Ok(m) <==> SpellsMimeType(v, m)
  {
    if v.Str? {
      MimeIsMeant(v.text, code, m);
    }
  }

  lemma HeaderMimeIsMeant(v: Value, code: string, m: Text)
    ensures HeaderMimeType(v, code) == Ok(m) <==> SpellsHeaderMime(v, m)
  {
    if v.Str? {
      UpToCuts(v.text, SEMICOLON);
      MimeIsMeant(UpTo(v.text, SEMICOLON), code, m);
      var n := |UpTo(v.text, SEMICOLON)|;
      assert v.text[..n] == UpTo(v.text, SEMICOLON);
      if SpellsHeaderMime(v, m) {
        var k :| 0 <= k <= |v.text| && (k < |v.text| ==> v.text[k] == ';' as int)
                 && (forall l | 0 <= l < k :: v.text[l] != ';' as int) && SpellsMime(v.text[..k], m);
        assert k == n;
      }
    }
  }

  lemma {:induction false} DecimalIsAscii(n: nat)
    ensures IsDecimal(Ascii(Decimals.Decimal(n))) && DecimalValue(Ascii(Decimals.Decimal(n))) == n
    ensures n > 0 ==> Decimals.Decimal(n)[0] != '0'
  {
    var d := Decimals.Decimal(n);
    var t := Ascii(d);
    assert forall i | 0 <= i < |d| :: Decimals.IsDigit(d[i]) && t[i] == d[i] as int;
    if n >= 10 {
      DecimalIsAscii(n / 10);
      assert t[..|t| - 1] == Ascii(Decimals.Decimal(n / 10));
      assert t[0] == Ascii(Decimals.Decimal(n / 10))[0];
    } else {
      assert t[..|t| - 1] == [];
    }
  }

  lemma AsciiOfMore(d: string, c: char)
    requires c <= '~'
    ensures Ascii(d + [c]) == Ascii(d) + [c as int]
  {
  }

  lemma DecimalOfMore(k: nat, d: int)
    requires k > 0 && 0 <= d < 10
    ensures Decimals.Decimal(k * 10 + d) == Decimals.Decimal(k) + [('0' as int + d) as char]
  {
  }

  lemma OneMoreDigit(s: Text, u: Unit)
    requires 0x30 <= u <= 0x39 && DecimalValue.requires(s) && DecimalValue(s) > 0
    requires s == Ascii(Decimals.Decimal(DecimalValue(s)))
    ensures s + [u] == Ascii(Decimals.Decimal(DecimalValue(s) * 10 + (u - 0x30)))
  {
    DecimalOfMore(DecimalValue(s), u - 0x30);
    AsciiOfMore(Decimals.Decimal(DecimalValue(s)), u as char);
  }

  lemma PositiveStart(s: Text)
    requires IsDecimal(s) && s[0] != 0x30 && s == Ascii(Decimals.Decimal(DecimalValue(s)))
    ensures DecimalValue(s) > 0
  {
    assert Ascii(Decimals.Decimal(0))[0] == 0x30;
  }

  lemma WithLast(t: Text)
    requires t != []
    ensures t == t[..|t| - 1] + [t[|t| - 1]] && (|t| > 1 ==> t[..|t| - 1][0] == t[0])
  {
  }

  lemma OneDigit(u: Unit)
    requires 0x30 <= u <= 0x39
    ensures DecimalValue([u]) == u - 0x30 && [u] == Ascii(Decimals.Decimal(u - 0x30))
  {
  }

  lemma {:induction false} DecimalValueFits(t: Text)
    requires IsDecimal(t)
    ensures t == Ascii(Decimals.Decimal(DecimalValue(t)))
  {
    var s, last := t[..|t| - 1], t[|t| - 1];
    WithLast(t);
    if |t| == 1 {
      OneDigit(last);
    } else {
      DecimalValueFits(s);
      PositiveStart(s);
      OneMoreDigit(s, last);
    }
  }

  lemma HeaderSizeIsMeant(v: Value, n: nat)
    ensures HeaderByteSize(v) == Ok(n) <==> SpellsHeaderSize(v, n)
  {
    DecimalIsAscii(n);
    if v.Str? && IsDecimal(v.text) {
      DecimalValueFits(v.text);
    }
  }

  /** Under several names: what is read is what every given name means. */
  lemma SayingIsTelling<T>(fields: Fields, keys: seq<string>, norm: (Value, string) -> Result<T>, code: string,
                           means: (Value, T) -> bool, x: T)
    requires forall v :: norm(v, code) == Ok(x) <==> means(v, x)
    ensures Says(fields, keys, norm, code, x) <==> Tells(fields, keys, means, x)
  {
  }
}
