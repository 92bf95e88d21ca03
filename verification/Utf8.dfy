/**
  UTF-8: the encoder of section 3 of RFC 3629, the well-formed byte sequences of
  its section 4, and decoders that put U+FFFD where a sequence is ill-formed.
 */
module Utf8 {
  type Byte = b: int | 0 <= b < 256

  type Scalar = s: int | 0 <= s < 0xD800 || 0xE000 <= s < 0x11_0000

  const REPLACEMENT: Scalar := 0xFFFD

  // ----- encoding ----------------------------------------------------------

  function Lead(base: int, v: int): Byte
    requires 0 <= base + v < 256
  {
    base + v
  }

  function Tail(v: int): Byte { Lead(0x80, v % 64) }

  function EncodeOne(s: Scalar): (bytes: seq<Byte>)
    ensures 1 <= |bytes| <= 4
  {
    if s < 0x80 then [Lead(0, s)]
    else if s < 0x800 then [Lead(0xC0, s / 64), Tail(s)]
    else if s < 0x1_0000 then [Lead(0xE0, s / 64 / 64), Tail(s / 64), Tail(s)]
    else [Lead(0xF0, s / 64 / 64 / 64), Tail(s / 64 / 64), Tail(s / 64), Tail(s)]
  }

  function Encode(text: seq<Scalar>): seq<Byte> {
    if text == [] then [] else EncodeOne(text[0]) + Encode(text[1..])
  }

  // ----- well-formed sequences ---------------------------------------------

  predicate IsTail(b: Byte) { 0x80 <= b <= 0xBF }

  /** The range of the second byte, given the first of a longer sequence. */
  predicate SecondFits(first: Byte, second: Byte) {
    if first == 0xE0 then 0xA0 <= second <= 0xBF
    else if first == 0xED then 0x80 <= second <= 0x9F
    else if first == 0xF0 then 0x90 <= second <= 0xBF
    else if first == 0xF4 then 0x80 <= second <= 0x8F
    else IsTail(second)
  }

  /** How many bytes a sequence with this first byte has; 0 when none begins with it. */
  function LengthOf(first: Byte): nat {
    if first <= 0x7F then 1
    else if 0xC2 <= first <= 0xDF then 2
    else if 0xE0 <= first <= 0xEF then 3
    else if 0xF0 <= first <= 0xF4 then 4
    else 0
  }

  /** The length of the well-formed sequence at the start, or 0 if there is none. */
  function SequenceLength(bytes: seq<Byte>): (n: nat)
    ensures n <= |bytes|
  {
    if bytes == [] then 0
    else
      var n := LengthOf(bytes[0]);
      if n == 0 || |bytes| < n then 0
      else if n == 1 then 1
      else if !SecondFits(bytes[0], bytes[1]) || !(forall i | 2 <= i < n :: IsTail(bytes[i])) then 0
      else n
  }

  predicate WellFormed(bytes: seq<Byte>)
    decreases |bytes|
  {
    bytes == [] || (SequenceLength(bytes) > 0 && WellFormed(bytes[SequenceLength(bytes)..]))
  }

  function Append(v: int, tail: Byte): int { v * 64 + (tail as int - 0x80) }

  /** The character a well-formed sequence stands for. */
  function ScalarAt(bytes: seq<Byte>): Scalar
    requires SequenceLength(bytes) > 0
  {
    var first := bytes[0] as int;
    match SequenceLength(bytes)
    case 1 => first
    case 2 => Append(first - 0xC0, bytes[1])
    case 3 => Append(Append(first - 0xE0, bytes[1]), bytes[2])
    case _ => Append(Append(Append(first - 0xF0, bytes[1]), bytes[2]), bytes[3])
  }

  // ----- decoding ----------------------------------------------------------

  /**
    A replacing decoder: it takes well-formed sequences as they are, and where
    none begins it takes some bytes, however many, as one U+FFFD.
   */
  ghost predicate Decodes(bytes: seq<Byte>, text: seq<Scalar>)
    decreases |bytes|
  {
    if bytes == [] then text == []
    else
      && text != []
      && var n := SequenceLength(bytes);
         if n > 0 then text[0] == ScalarAt(bytes) && Decodes(bytes[n..], text[1..])
         else text[0] == REPLACEMENT && exists k :: 1 <= k <= |bytes| && Decodes(bytes[k..], text[1..])
  }

  /** The longest start of a well-formed sequence, at least one byte: what one U+FFFD stands for. */
  function MaximalSubpart(bytes: seq<Byte>): (k: nat)
    requires bytes != []
    ensures 1 <= k <= |bytes|
  {
    var n := LengthOf(bytes[0]);
    if n < 2 || |bytes| < 2 || !SecondFits(bytes[0], bytes[1]) then 1
    else if n < 3 || |bytes| < 3 || !IsTail(bytes[2]) then 2
    else 3
  }

  function Decode(bytes: seq<Byte>): seq<Scalar>
    decreases |bytes|
  {
    if bytes == [] then []
    else
      var n := SequenceLength(bytes);
      if n > 0 then [ScalarAt(bytes)] + Decode(bytes[n..])
      else [REPLACEMENT] + Decode(bytes[MaximalSubpart(bytes)..])
  }

  lemma {:induction false} DecodeReplaces(bytes: seq<Byte>)
    ensures Decodes(bytes, Decode(bytes))
    decreases |bytes|
  {
    if bytes != [] {
      var n := SequenceLength(bytes);
      var k := if n > 0 then n else MaximalSubpart(bytes);
      DecodeReplaces(bytes[k..]);
      assert Decode(bytes)[1..] == Decode(bytes[k..]);
    }
  }

  /** With some bytes behind it, `start` is one whole well-formed sequence. */
  ghost predicate Begins(start: seq<Byte>) {
    exists tail: seq<Byte> :: SequenceLength(start + tail) == |start| + |tail|
  }

  lemma NoLongerStart(bytes: seq<Byte>, j: nat, tail: seq<Byte>)
    requires bytes != [] && SequenceLength(bytes) == 0 && MaximalSubpart(bytes) < j <= |bytes|
    ensures SequenceLength(bytes[..j] + tail) != j + |tail|
  {
    var whole := bytes[..j] + tail;
    assert forall i | 0 <= i < j :: whole[i] == bytes[i];
    if SequenceLength(bytes) == 0 && LengthOf(bytes[0]) == 4 && |bytes| > 3 && j > 3 {
      assert whole[3] == bytes[3];
    }
  }

  /** Where no sequence begins, one U+FFFD takes the longest start of one, or a single byte. */
  lemma SubpartIsMaximal(bytes: seq<Byte>)
    requires bytes != [] && SequenceLength(bytes) == 0
    ensures MaximalSubpart(bytes) > 1 ==> Begins(bytes[..MaximalSubpart(bytes)])
    ensures forall j | MaximalSubpart(bytes) < j <= |bytes| :: !Begins(bytes[..j])
  {
    var k, n := MaximalSubpart(bytes), LengthOf(bytes[0]);
    if k > 1 {
      var tail: seq<Byte> := if n - k == 1 then [0x80] else [0x80, 0x80];
      assert (bytes[..k] + tail)[0] == bytes[0] && (bytes[..k] + tail)[1] == bytes[1];
      assert SequenceLength(bytes[..k] + tail) == k + |tail|;
    }
    forall j | k < j <= |bytes| ensures !Begins(bytes[..j]) {
      forall tail: seq<Byte> ensures SequenceLength(bytes[..j] + tail) != |bytes[..j]| + |tail| {
        NoLongerStart(bytes, j, tail);
      }
    }
  }

  // ----- one character -----------------------------------------------------

  /** What the encoder writes for a character is a well-formed sequence for that character. */
  lemma EncodedIsSequence(s: Scalar, rest: seq<Byte>)
    ensures SequenceLength(EncodeOne(s) + rest) == |EncodeOne(s)|
    ensures ScalarAt(EncodeOne(s) + rest) == s
  {
    var bytes := EncodeOne(s) + rest;
    assert forall i | 0 <= i < |EncodeOne(s)| :: bytes[i] == EncodeOne(s)[i];
  }

  lemma AppendSplits(v: int, tail: Byte)
    requires IsTail(tail)
    ensures Append(v, tail) / 64 == v && Tail(Append(v, tail)) == tail
  {
  }

  /** A well-formed sequence is what the encoder writes for its character. */
  lemma SequenceIsEncoded(bytes: seq<Byte>)
    requires SequenceLength(bytes) > 0
    ensures EncodeOne(ScalarAt(bytes)) == bytes[..SequenceLength(bytes)]
  {
    var n, first := SequenceLength(bytes), bytes[0] as int;
    if n == 2 {
      AppendSplits(first - 0xC0, bytes[1]);
    } else if n == 3 {
      var v := Append(first - 0xE0, bytes[1]);
      AppendSplits(first - 0xE0, bytes[1]);
      AppendSplits(v, bytes[2]);
    } else if n == 4 {
      var v := Append(first - 0xF0, bytes[1]);
      var w := Append(v, bytes[2]);
      AppendSplits(first - 0xF0, bytes[1]);
      AppendSplits(v, bytes[2]);
      AppendSplits(w, bytes[3]);
    }
  }

  // ----- whole texts -------------------------------------------------------

  lemma {:induction false} EncodeIsWellFormed(text: seq<Scalar>)
    ensures WellFormed(Encode(text))
  {
    if text != [] {
      EncodeIsWellFormed(text[1..]);
      EncodedIsSequence(text[0], Encode(text[1..]));
      assert Encode(text)[|EncodeOne(text[0])|..] == Encode(text[1..]);
    }
  }

  lemma {:induction false} WellFormedDecodesBack(bytes: seq<Byte>, text: seq<Scalar>)
    requires Decodes(bytes, text) && WellFormed(bytes)
    ensures Encode(text) == bytes
    decreases |bytes|
  {
    if bytes != [] {
      var n := SequenceLength(bytes);
      WellFormedDecodesBack(bytes[n..], text[1..]);
      SequenceIsEncoded(bytes);
      assert bytes == bytes[..n] + bytes[n..];
    }
  }

  /**
    For every replacing decoder, the test that encoding the decoded text gives
    the bytes again accepts exactly the well-formed byte sequences.
   */
  lemma RoundTripTestIsExact(bytes: seq<Byte>, text: seq<Scalar>)
    requires Decodes(bytes, text)
    ensures Encode(text) == bytes <==> WellFormed(bytes)
  {
    EncodeIsWellFormed(text);
    if WellFormed(bytes) {
      WellFormedDecodesBack(bytes, text);
    }
  }

  /** Also bytes that really contain U+FFFD pass, and come back as they were sent. */
  lemma {:induction false} DecodeInvertsEncode(text: seq<Scalar>)
    ensures WellFormed(Encode(text)) && Decode(Encode(text)) == text
  {
    EncodeIsWellFormed(text);
    if text != [] {
      EncodedIsSequence(text[0], Encode(text[1..]));
      assert Encode(text)[|EncodeOne(text[0])|..] == Encode(text[1..]);
      DecodeInvertsEncode(text[1..]);
    }
  }

  // ----- strings -----------------------------------------------------------

  type Unit = u: int | 0 <= u < 0x1_0000

  function AsUnit(v: int): Unit
    requires 0 <= v < 0x1_0000
  {
    v
  }

  /** One unit, or a surrogate pair with ten bits in either half. */
  function UnitsOfOne(s: Scalar): (units: seq<Unit>)
    ensures s < 0x1_0000 ==> units == [AsUnit(s)]
    ensures s >= 0x1_0000 ==>
              && |units| == 2 && 0xD800 <= units[0] < 0xDC00 && 0xDC00 <= units[1] < 0xE000
              && s as int == 0x1_0000 + (units[0] as int - 0xD800) * 0x400 + (units[1] as int - 0xDC00)
  {
    var v := s as int - 0x1_0000;
    if v < 0 then [AsUnit(s)] else [AsUnit(0xD800 + v / 1024), AsUnit(0xDC00 + v % 1024)]
  }

  /** The string that holds a decoded text. */
  function UnitsOf(text: seq<Scalar>): seq<Unit> {
    if text == [] then [] else UnitsOfOne(text[0]) + UnitsOf(text[1..])
  }

  /** Different texts are different strings. */
  lemma {:induction false} UnitsAreInjective(a: seq<Scalar>, b: seq<Scalar>)
    requires UnitsOf(a) == UnitsOf(b)
    ensures a == b
  {
    if a != [] && b != [] {
      var x, y := UnitsOfOne(a[0]), UnitsOfOne(b[0]);
      assert UnitsOf(a)[0] == x[0] && UnitsOf(b)[0] == y[0];
      assert |x| > 1 && |y| > 1 ==> UnitsOf(a)[1] == x[1] && UnitsOf(b)[1] == y[1];
      assert a[0] == b[0];
      assert UnitsOf(a)[|x|..] == UnitsOf(a[1..]) && UnitsOf(b)[|y|..] == UnitsOf(b[1..]);
      UnitsAreInjective(a[1..], b[1..]);
    }
  }
}
