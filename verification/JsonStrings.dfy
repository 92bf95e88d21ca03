/**
  Strings as JSON writes them. Printing follows QuoteJSONString, section
  25.5.2.2 of ECMA-262; reading accepts every string of section 7 of RFC 8259.
 */
module JsonStrings {
  import opened Wrappers
  import opened JsonNumbers

  const QUOTE: Unit := 0x22
  const BACKSLASH: Unit := 0x5C
  const SLASH: Unit := 0x2F
  const LETTER_U: Unit := 0x75

  predicate IsHigh(u: Unit) { 0xD800 <= u < 0xDC00 }
  predicate IsLow(u: Unit) { 0xDC00 <= u < 0xE000 }

  // ----- printing ----------------------------------------------------------

  function HexUnit(d: int): Unit
    requires 0 <= d < 16
  {
    if d < 10 then 0x30 + d else 0x61 + (d - 10)
  }

  function HexText(u: Unit): Text {
    var high, low := u / 0x100, u % 0x100;
    [HexUnit(high / 16), HexUnit(high % 16), HexUnit(low / 16), HexUnit(low % 16)]
  }

  /** The letter of a two-character escape, for the units that have one. */
  function ShortEscape(u: Unit): Option<Unit> {
    if u == QUOTE || u == BACKSLASH then Some(u)
    else if u == 8 then Some(0x62)
    else if u == 9 then Some(0x74)
    else if u == 10 then Some(0x6E)
    else if u == 12 then Some(0x66)
    else if u == 13 then Some(0x72)
    else None
  }

  function Escape(u: Unit): Text {
    if ShortEscape(u).Some? then [BACKSLASH, ShortEscape(u).value]
    else if u < 0x20 || IsHigh(u) || IsLow(u) then [BACKSLASH, LETTER_U] + HexText(u)
    else [u]
  }

  /** Paired surrogates stay as they are, lone ones are escaped. */
  function EscapeAll(s: Text): Text {
    if s == [] then []
    else if IsHigh(s[0]) && |s| > 1 && IsLow(s[1]) then [s[0], s[1]] + EscapeAll(s[2..])
    else Escape(s[0]) + EscapeAll(s[1..])
  }

  function Quoted(s: Text): Text { [QUOTE] + EscapeAll(s) + [QUOTE] }

  // ----- reading -----------------------------------------------------------

  function HexValue(u: Unit): (d: Option<int>)
    ensures d.Some? ==> 0 <= d.value < 16
  {
    if 0x30 <= u <= 0x39 then Some(u - 0x30)
    else if 0x41 <= u <= 0x46 then Some(u - 0x41 + 10)
    else if 0x61 <= u <= 0x66 then Some(u - 0x61 + 10)
    else None
  }

  function ReadHex(t: Text): (r: Option<Read<Unit>>)
    ensures r.Some? ==> |r.value.rest| < |t|
  {
    if |t| < 4 then None
    else
      var a, b, c, d := HexValue(t[0]), HexValue(t[1]), HexValue(t[2]), HexValue(t[3]);
      if a.None? || b.None? || c.None? || d.None? then None
      else
        var u: Unit := (a.value * 16 + b.value) * 0x100 + (c.value * 16 + d.value);
        Some(Read(u, t[4..]))
  }

  /** The unit a two-character escape stands for. */
  function ShortMeaning(letter: Unit): Option<Unit> {
    if letter == QUOTE || letter == BACKSLASH || letter == SLASH then Some(letter)
    else if letter == 0x62 then Some(8)
    else if letter == 0x74 then Some(9)
    else if letter == 0x6E then Some(10)
    else if letter == 0x66 then Some(12)
    else if letter == 0x72 then Some(13)
    else None
  }

  /** One character of a string, escaped or not, before the closing quote. */
  function ReadUnit(t: Text): (r: Option<Read<Unit>>)
    ensures r.Some? ==> |r.value.rest| < |t|
  {
    if t == [] || t[0] == QUOTE || t[0] < 0x20 then None
    else if t[0] != BACKSLASH then Some(Read(t[0], t[1..]))
    else if |t| == 1 then None
    else if t[1] == LETTER_U then ReadHex(t[2..])
    else
      var meaning := ShortMeaning(t[1]);
      if meaning.None? then None else Some(Read(meaning.value, t[2..]))
  }

  /** The rest of a string after its opening quote. */
  function ReadUnits(t: Text): (r: Option<Read<Text>>)
    ensures r.Some? ==> |r.value.rest| < |t|
    decreases |t|
  {
    if t != [] && t[0] == QUOTE then Some(Read([], t[1..]))
    else
      var first := ReadUnit(t);
      if first.None? then None
      else
        var more := ReadUnits(first.value.rest);
        if more.None? then None else Some(Read([first.value.value] + more.value.value, more.value.rest))
  }

  function ReadString(t: Text): (r: Option<Read<Text>>)
    ensures r.Some? ==> |r.value.rest| < |t|
  {
    if t == [] || t[0] != QUOTE then None else ReadUnits(t[1..])
  }

  // ----- reading what was printed ------------------------------------------

  lemma HexDigitReadsBack(d: int)
    requires 0 <= d < 16
    ensures HexValue(HexUnit(d)) == Some(d)
  {
  }

  lemma HexReadsBack(u: Unit, rest: Text)
    ensures ReadHex(HexText(u) + rest) == Some(Read(u, rest))
  {
    var t := HexText(u) + rest;
    var high, low := u / 0x100, u % 0x100;
    assert t[4..] == rest;
    HexDigitReadsBack(high / 16);
    HexDigitReadsBack(high % 16);
    HexDigitReadsBack(low / 16);
    HexDigitReadsBack(low % 16);
  }

  lemma UnitReadsBack(u: Unit, rest: Text)
    ensures ReadUnit(Escape(u) + rest) == Some(Read(u, rest))
    ensures Escape(u)[0] != QUOTE
  {
    var t := Escape(u) + rest;
    if ShortEscape(u).Some? {
      assert t[2..] == rest;
    } else if u < 0x20 || IsHigh(u) || IsLow(u) {
      assert t[2..] == HexText(u) + rest;
      HexReadsBack(u, rest);
    } else {
      assert t[1..] == rest;
    }
  }

  lemma Assoc(a: Text, b: Text, c: Text)
    ensures (a + b) + c == a + (b + c)
  {
  }

  /** One more unit in front, escaped or raw. */
  lemma ReadsOneMore(head: Text, u: Unit, t: Text, s: Text, rest: Text)
    requires ReadUnits(t) == Some(Read(s, rest))
    requires head == Escape(u) || (head == [u] && u >= 0x20 && u != QUOTE && u != BACKSLASH)
    ensures ReadUnits(head + t) == Some(Read([u] + s, rest))
  {
    if head == Escape(u) {
      UnitReadsBack(u, t);
    } else {
      assert (head + t)[1..] == t;
    }
    assert ReadUnit(head + t) == Some(Read(u, t));
  }

  lemma {:induction false} UnitsReadBack(s: Text, rest: Text)
    ensures ReadUnits(EscapeAll(s) + ([QUOTE] + rest)) == Some(Read(s, rest))
    decreases |s|
  {
    var end := [QUOTE] + rest;
    if s == [] {
      assert [] + end == end && end[1..] == rest;
    } else if IsHigh(s[0]) && |s| > 1 && IsLow(s[1]) {
      UnitsReadBack(s[2..], rest);
      var t := EscapeAll(s[2..]) + end;
      ReadsOneMore([s[1]], s[1], t, s[2..], rest);
      ReadsOneMore([s[0]], s[0], [s[1]] + t, [s[1]] + s[2..], rest);
      Assoc([s[0], s[1]], EscapeAll(s[2..]), end);
      Assoc([s[0]], [s[1]], t);
      assert [s[0]] + [s[1]] == [s[0], s[1]];
      assert [s[0]] + ([s[1]] + s[2..]) == s;
    } else {
      UnitsReadBack(s[1..], rest);
      var t := EscapeAll(s[1..]) + end;
      ReadsOneMore(Escape(s[0]), s[0], t, s[1..], rest);
      Assoc(Escape(s[0]), EscapeAll(s[1..]), end);
      assert [s[0]] + s[1..] == s;
    }
  }

  /** Every string is read back from its quoted form, whatever follows it. */
  lemma StringReadsBack(s: Text, rest: Text)
    ensures ReadString(Quoted(s) + rest) == Some(Read(s, rest))
  {
    UnitsReadBack(s, rest);
    assert (Quoted(s) + rest)[1..] == EscapeAll(s) + ([QUOTE] + rest);
  }

  // ----- the text, literally -----------------------------------------------

  const LOWER_HEX := "0123456789abcdef"

  /** A surrogate that is one half of a pair in `s`. */
  predicate IsPaired(s: Text, i: nat)
    requires i < |s|
  {
    || (0xD800 <= s[i] < 0xDC00 && i + 1 < |s| && 0xDC00 <= s[i + 1] < 0xE000)
    || (0xDC00 <= s[i] < 0xE000 && i > 0 && 0xD800 <= s[i - 1] < 0xDC00)
  }

  /** `\u` and the four lower-case digits of the unit in base 16. */
  predicate SpellsHex(u: Unit, piece: Text) {
    exists a | 0 <= a < 16 :: exists b | 0 <= b < 16 :: exists c | 0 <= c < 16 :: exists d | 0 <= d < 16 ::
      && u == a * 4096 + b * 256 + c * 16 + d
      && piece == Ascii(['\\', 'u', LOWER_HEX[a], LOWER_HEX[b], LOWER_HEX[c], LOWER_HEX[d]])
  }

  /** The units that have an escape of two characters. */
  predicate StandsShort(u: Unit, piece: Text) {
    || (u == '\"' as int && piece == Ascii("\\\"")) || (u == '\\' as int && piece == Ascii("\\\\"))
    || (u == 8 && piece == Ascii("\\b")) || (u == 9 && piece == Ascii("\\t")) || (u == 10 && piece == Ascii("\\n"))
    || (u == 12 && piece == Ascii("\\f")) || (u == 13 && piece == Ascii("\\r"))
  }

  /** What stands for the unit at `i`, given literally. */
  predicate Stands(s: Text, i: nat, piece: Text)
    requires i < |s|
  {
    var u := s[i];
    if u in {0x22, 0x5C, 8, 9, 10, 12, 13} then StandsShort(u, piece)
    else if u < 0x20 || (0xD800 <= u < 0xE000 && !IsPaired(s, i)) then SpellsHex(u, piece)
    else piece == [u]
  }

  function Concat(pieces: seq<Text>): Text {
    if pieces == [] then [] else pieces[0] + Concat(pieces[1..])
  }

  lemma HexIsLiteral(d: int)
    requires 0 <= d < 16
    ensures HexUnit(d) == LOWER_HEX[d] as int
  {
  }

  lemma HexTextIsLiteral(u: Unit)
    ensures SpellsHex(u, [BACKSLASH, LETTER_U] + HexText(u))
  {
    var high, low := u / 0x100, u % 0x100;
    var a, b, c, d := high / 16, high % 16, low / 16, low % 16;
    HexIsLiteral(a);
    HexIsLiteral(b);
    HexIsLiteral(c);
    HexIsLiteral(d);
    assert u == a * 4096 + b * 256 + c * 16 + d;
    assert [BACKSLASH, LETTER_U] + HexText(u) == Ascii(['\\', 'u', LOWER_HEX[a], LOWER_HEX[b], LOWER_HEX[c], LOWER_HEX[d]]);
  }

  lemma ShortIsLiteral(u: Unit)
    requires ShortEscape(u).Some?
    ensures StandsShort(u, [BACKSLASH, ShortEscape(u).value])
  {
  }

  lemma EscapeIsLiteral(s: Text, i: nat)
    requires i < |s| && !IsPaired(s, i)
    ensures Stands(s, i, Escape(s[i]))
  {
    var u := s[i];
    if ShortEscape(u).Some? {
      ShortIsLiteral(u);
    } else if u < 0x20 || IsHigh(u) || IsLow(u) {
      HexTextIsLiteral(u);
    }
  }

  /** Every piece stands for its unit, and together they are the escaped text. */
  predicate IsPiecewise(s: Text, pieces: seq<Text>) {
    |pieces| == |s| && EscapeAll(s) == Concat(pieces) && forall i | 0 <= i < |s| :: Stands(s, i, pieces[i])
  }

  lemma OnePiece(s: Text, more: seq<Text>)
    requires s != [] && !(IsHigh(s[0]) && |s| > 1 && IsLow(s[1])) && IsPiecewise(s[1..], more)
    ensures IsPiecewise(s, [Escape(s[0])] + more)
  {
    var pieces := [Escape(s[0])] + more;
    assert pieces[1..] == more;
    EscapeIsLiteral(s, 0);
    forall i | 0 < i < |s| ensures Stands(s, i, pieces[i]) {
      assert pieces[i] == more[i - 1];
      StandsInSuffix(s, 1, i, pieces[i]);
    }
  }

  lemma PairedPieces(s: Text, more: seq<Text>)
    requires |s| > 1 && IsHigh(s[0]) && IsLow(s[1]) && IsPiecewise(s[2..], more)
    ensures IsPiecewise(s, [[s[0]]] + ([[s[1]]] + more))
  {
    var tail := [[s[1]]] + more;
    var pieces := [[s[0]]] + tail;
    assert tail[1..] == more && pieces[1..] == tail;
    Assoc([s[0]], [s[1]], Concat(more));
    assert [s[0]] + [s[1]] == [s[0], s[1]];
    forall i | 0 <= i < |s| ensures Stands(s, i, pieces[i]) {
      if i >= 2 {
        assert pieces[i] == more[i - 2];
        StandsInSuffix(s, 2, i, pieces[i]);
      }
    }
  }

  lemma NoPieces(s: Text)
    requires s == []
    ensures IsPiecewise(s, [])
  {
  }

  lemma {:induction false} EscapesAreLiteral(s: Text) returns (pieces: seq<Text>)
    ensures IsPiecewise(s, pieces)
    decreases |s|
  {
    if s == [] {
      NoPieces(s);
      pieces := [];
    } else if IsHigh(s[0]) && |s| > 1 && IsLow(s[1]) {
      var more := EscapesAreLiteral(s[2..]);
      PairedPieces(s, more);
      pieces := [[s[0]]] + ([[s[1]]] + more);
    } else {
      var more := EscapesAreLiteral(s[1..]);
      OnePiece(s, more);
      pieces := [Escape(s[0])] + more;
    }
  }

  /** Only a pair reaches beyond its own unit, and no pair is cut here. */
  lemma StandsInSuffix(s: Text, n: nat, i: nat, piece: Text)
    requires 0 < n <= i < |s| && !(IsHigh(s[n - 1]) && IsLow(s[n])) && Stands(s[n..], i - n, piece)
    ensures Stands(s, i, piece)
  {
  }

  /** A string is quoted unit by unit: which units are escaped, and how, is told literally. */
  lemma QuotedIsLiteral(s: Text) returns (pieces: seq<Text>)
    ensures |pieces| == |s| && Quoted(s) == Ascii("\"") + Concat(pieces) + Ascii("\"")
    ensures forall i | 0 <= i < |s| :: Stands(s, i, pieces[i])
  {
    pieces := EscapesAreLiteral(s);
    assert Ascii("\"") == [QUOTE];
  }
}
