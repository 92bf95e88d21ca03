/** Base64 with padding, section 4 of RFC 4648: sizes, recognition, decoding. */
module Base64 {
  import Utf8

  type Byte = Utf8.Byte

  type Sextet = v: int | 0 <= v < 64

  // ----- the alphabet ------------------------------------------------------

  predicate IsLetter(c: char) { 'A' <= c <= 'Z' || 'a' <= c <= 'z' || '0' <= c <= '9' || c == '+' || c == '/' }

  function LetterOf(v: Sextet): (c: char)
    ensures IsLetter(c)
  {
    if v < 26 then ('A' as int + v) as char
    else if v < 52 then ('a' as int + (v - 26)) as char
    else if v < 62 then ('0' as int + (v - 52)) as char
    else if v == 62 then '+' else '/'
  }

  const UPPER := "ABCDEFGHIJKLMNOPQRSTUVWXYZ"
  const LOWER := "abcdefghijklmnopqrstuvwxyz"
  const DIGITS := "0123456789"

  /** Table 1 of RFC 4648: capitals, small letters, digits, plus and slash, in this order. */
  lemma LettersAreListed(v: Sextet)
    ensures v < 26 ==> LetterOf(v) == UPPER[v]
    ensures 26 <= v < 52 ==> LetterOf(v) == LOWER[v - 26]
    ensures 52 <= v < 62 ==> LetterOf(v) == DIGITS[v - 52]
    ensures v == 62 ==> LetterOf(v) == '+'
    ensures v == 63 ==> LetterOf(v) == '/'
  {
    if v < 26 {
      UpperAt(v);
    } else if v < 52 {
      LowerAt(v - 26);
    } else if v < 62 {
      DigitAt(v - 52);
    }
  }

  lemma UpperAt(k: nat)
    requires k < 26
    ensures UPPER[k] as int == 'A' as int + k
  {
  }

  lemma LowerAt(k: nat)
    requires k < 26
    ensures LOWER[k] as int == 'a' as int + k
  {
  }

  lemma DigitAt(k: nat)
    requires k < 10
    ensures DIGITS[k] as int == '0' as int + k
  {
  }

  function ValueOf(c: char): Sextet
    requires IsLetter(c)
  {
    if 'A' <= c <= 'Z' then c as int - 'A' as int
    else if 'a' <= c <= 'z' then c as int - 'a' as int + 26
    else if '0' <= c <= '9' then c as int - '0' as int + 52
    else if c == '+' then 62 else 63
  }

  lemma LetterMeansValue(v: Sextet)
    ensures ValueOf(LetterOf(v)) == v
  {
  }

  // ----- encoding ----------------------------------------------------------

  function Group(a: Sextet, b: Sextet, c: Sextet, d: Sextet): string { [LetterOf(a), LetterOf(b), LetterOf(c), LetterOf(d)] }

  function EncodeGroup(x: Byte, y: Byte, z: Byte): (s: string)
    ensures |s| == 4
  {
    Group(x / 4, x % 4 * 16 + y / 16, y % 16 * 4 + z / 64, z % 64)
  }

  function Encode(bytes: seq<Byte>): string
    decreases |bytes|
  {
    if bytes == [] then ""
    else if |bytes| == 1 then [LetterOf(bytes[0] / 4), LetterOf(bytes[0] % 4 * 16), '=', '=']
    else if |bytes| == 2 then
      [LetterOf(bytes[0] / 4), LetterOf(bytes[0] % 4 * 16 + bytes[1] / 16), LetterOf(bytes[1] % 16 * 4), '=']
    else EncodeGroup(bytes[0], bytes[1], bytes[2]) + Encode(bytes[3..])
  }

  // ----- recognition and decoding ------------------------------------------

  /** How many padding characters end the text. */
  function Padding(s: string): nat {
    if |s| >= 2 && s[|s| - 2] == '=' then 2 else if |s| >= 1 && s[|s| - 1] == '=' then 1 else 0
  }

  /** Groups of four letters; the last group may end in one or two padding characters. */
  predicate IsBase64(s: string)
    decreases |s|
  {
    if s == "" then true
    else if |s| < 4 || !IsLetter(s[0]) || !IsLetter(s[1]) then false
    else if |s| == 4 && s[3] == '=' then s[2] == '=' || IsLetter(s[2])
    else IsLetter(s[2]) && IsLetter(s[3]) && IsBase64(s[4..])
  }

  function First(a: Sextet, b: Sextet): Byte { a * 4 + b / 16 }
  function Second(b: Sextet, c: Sextet): Byte { b % 16 * 16 + c / 4 }
  function Third(c: Sextet, d: Sextet): Byte { c % 4 * 64 + d }

  function Decode(s: string): seq<Byte>
    requires IsBase64(s)
    decreases |s|
  {
    if s == "" then []
    else
      var a, b := ValueOf(s[0]), ValueOf(s[1]);
      if |s| == 4 && s[3] == '=' then
        if s[2] == '=' then [First(a, b)] else [First(a, b), Second(b, ValueOf(s[2]))]
      else
        var c, d := ValueOf(s[2]), ValueOf(s[3]);
        [First(a, b), Second(b, c), Third(c, d)] + Decode(s[4..])
  }

  /** Three bytes for every four characters, less one for every padding character. */
  function DecodedSize(s: string): int { |s| / 4 * 3 - Padding(s) }

  /** A whole group in front adds four characters and three bytes. */
  lemma GroupSizes(n: nat)
    requires n % 4 == 0
    ensures (n + 4) % 4 == 0 && (n + 4) / 4 * 3 == n / 4 * 3 + 3
  {
  }

  predicate IsWholeGroup(s: string) {
    |s| >= 4 && IsLetter(s[0]) && IsLetter(s[1]) && IsLetter(s[2]) && IsLetter(s[3])
  }

  lemma PaddingOfTail(s: string)
    requires IsWholeGroup(s) && |s| % 4 == 0
    ensures Padding(s) == Padding(s[4..])
  {
    if |s| > 4 {
      assert |s[4..]| >= 4 && s[4..][|s| - 5] == s[|s| - 1] && s[4..][|s| - 6] == s[|s| - 2];
    }
  }

  lemma {:induction false} SizeIsExact(s: string)
    requires IsBase64(s)
    ensures |s| % 4 == 0 && |Decode(s)| == DecodedSize(s)
    decreases |s|
  {
    if s != "" && !(|s| == 4 && s[3] == '=') {
      SizeIsExact(s[4..]);
      GroupSizes(|s[4..]|);
      PaddingOfTail(s);
      assert |Decode(s)| == 3 + |Decode(s[4..])|;
    }
  }

  lemma GroupReadsBack(x: Byte, y: Byte, z: Byte)
    ensures First(x / 4, x % 4 * 16 + y / 16) == x
    ensures Second(x % 4 * 16 + y / 16, y % 16 * 4 + z / 64) == y
    ensures Third(y % 16 * 4 + z / 64, z % 64) == z
  {
  }

  lemma GroupDecodes(a: Sextet, b: Sextet, c: Sextet, d: Sextet, rest: string)
    requires IsBase64(rest)
    ensures IsBase64(Group(a, b, c, d) + rest)
    ensures Decode(Group(a, b, c, d) + rest) == [First(a, b), Second(b, c), Third(c, d)] + Decode(rest)
  {
    var s := Group(a, b, c, d) + rest;
    assert s[4..] == rest && s[0] == LetterOf(a) && s[1] == LetterOf(b) && s[2] == LetterOf(c) && s[3] == LetterOf(d);
    LetterMeansValue(a);
    LetterMeansValue(b);
    LetterMeansValue(c);
    LetterMeansValue(d);
  }

  lemma TailDecodes(a: Sextet, b: Sextet, c: Sextet)
    ensures var s := [LetterOf(a), LetterOf(b), LetterOf(c), '=']; IsBase64(s) && Decode(s) == [First(a, b), Second(b, c)]
    ensures var s := [LetterOf(a), LetterOf(b), '=', '=']; IsBase64(s) && Decode(s) == [First(a, b)]
  {
    LetterMeansValue(a);
    LetterMeansValue(b);
    LetterMeansValue(c);
  }

  lemma OneMoreGroup(n: nat, length: nat)
    requires length == (n + 2) / 3 * 4
    ensures length + 4 == (n + 3 + 2) / 3 * 4 && (length + 4) % 4 == 0
  {
  }

  lemma {:induction false} EncodedLength(bytes: seq<Byte>)
    ensures |Encode(bytes)| == (|bytes| + 2) / 3 * 4 && |Encode(bytes)| % 4 == 0
    decreases |bytes|
  {
    if |bytes| >= 3 {
      EncodedLength(bytes[3..]);
      OneMoreGroup(|bytes| - 3, |Encode(bytes[3..])|);
      assert |Encode(bytes)| == |Encode(bytes[3..])| + 4;
    }
  }

  lemma OneReadsBack(x: Byte)
    ensures First(x / 4, x % 4 * 16) == x
  {
  }

  lemma TwoReadBack(x: Byte, y: Byte)
    ensures First(x / 4, x % 4 * 16 + y / 16) == x && Second(x % 4 * 16 + y / 16, y % 16 * 4) == y
  {
  }

  lemma OneByteReadsBack(x: Byte)
    ensures IsBase64(Encode([x])) && Decode(Encode([x])) == [x]
  {
    OneReadsBack(x);
    TailDecodes(x / 4, x % 4 * 16, 0);
  }

  lemma TwoBytesReadBack(x: Byte, y: Byte)
    ensures IsBase64(Encode([x, y])) && Decode(Encode([x, y])) == [x, y]
  {
    TwoReadBack(x, y);
    TailDecodes(x / 4, x % 4 * 16 + y / 16, y % 16 * 4);
  }

  lemma ThreeBytesReadBack(x: Byte, y: Byte, z: Byte, rest: string)
    requires IsBase64(rest)
    ensures var s := EncodeGroup(x, y, z) + rest; IsBase64(s) && Decode(s) == [x, y, z] + Decode(rest)
  {
    GroupReadsBack(x, y, z);
    GroupDecodes(x / 4, x % 4 * 16 + y / 16, y % 16 * 4 + z / 64, z % 64, rest);
  }

  lemma GroupInFrontReadsBack(bytes: seq<Byte>, text: string, rest: string)
    requires |bytes| >= 3 && text == EncodeGroup(bytes[0], bytes[1], bytes[2]) + rest
    requires IsBase64(rest) && Decode(rest) == bytes[3..]
    ensures IsBase64(text) && Decode(text) == bytes
  {
    ThreeBytesReadBack(bytes[0], bytes[1], bytes[2], rest);
    assert bytes == [bytes[0], bytes[1], bytes[2]] + bytes[3..];
  }

  /** Fewer than three bytes. */
  lemma ShortReadsBack(bytes: seq<Byte>)
    requires |bytes| < 3
    ensures IsBase64(Encode(bytes)) && Decode(Encode(bytes)) == bytes
  {
    if |bytes| == 1 {
      OneByteReadsBack(bytes[0]);
      assert bytes == [bytes[0]];
    } else if |bytes| == 2 {
      TwoBytesReadBack(bytes[0], bytes[1]);
      assert bytes == [bytes[0], bytes[1]];
    }
  }

  /** Decoding what was encoded gives the bytes back. */
  lemma {:induction false} DecodeInvertsEncode(bytes: seq<Byte>)
    ensures IsBase64(Encode(bytes)) && Decode(Encode(bytes)) == bytes
    decreases |bytes|
  {
    if |bytes| < 3 {
      ShortReadsBack(bytes);
    } else {
      DecodeInvertsEncode(bytes[3..]);
      GroupInFrontReadsBack(bytes, Encode(bytes), Encode(bytes[3..]));
    }
  }

  // ----- attachments -------------------------------------------------------

  const MAX_ATTACHMENT := 8 * 1024 * 1024
  const MAX_ATTACHMENT_TEXT := (MAX_ATTACHMENT + 2) / 3 * 4

  /** The length of the run of letters at the start. */
  function Letters(s: string): (n: nat)
    ensures n <= |s|
  {
    if s == "" || !IsLetter(s[0]) then 0 else 1 + Letters(s[1..])
  }

  /** What the attachment boundary checks of a content: its length, and letters before at most two padding characters. */
  predicate AttachmentAccepted(s: string) {
    && |s| <= MAX_ATTACHMENT_TEXT && |s| % 4 == 0
    && |s| - Letters(s) <= 2 && forall i | Letters(s) <= i < |s| :: s[i] == '='
  }

  /** On texts of whole groups the looser pattern recognizes the same texts. */
  lemma {:induction false} PatternsAgree(s: string)
    requires |s| % 4 == 0
    ensures IsBase64(s) <==> |s| - Letters(s) <= 2 && forall i | Letters(s) <= i < |s| :: s[i] == '='
    decreases |s|
  {
    if s != "" {
      var t := s[4..];
      assert Letters(s) == (if !IsLetter(s[0]) then 0 else 1 + Letters(s[1..]));
      assert Letters(s[1..]) == (if !IsLetter(s[1]) then 0 else 1 + Letters(s[2..]));
      assert Letters(s[2..]) == (if !IsLetter(s[2]) then 0 else 1 + Letters(s[3..]));
      assert s[3..][1..] == t;
      assert Letters(s[3..]) == (if !IsLetter(s[3]) then 0 else 1 + Letters(t));
      PatternsAgree(t);
      if Letters(s) >= 4 {
        assert forall i | 0 <= i < |t| :: t[i] == s[i + 4];
        assert forall i | 4 <= i < |s| :: s[i] == t[i - 4];
      }
    }
  }

  lemma BoundsFit(size: nat, length: nat)
    ensures size <= MAX_ATTACHMENT ==> (size + 2) / 3 * 4 <= MAX_ATTACHMENT_TEXT
    ensures length <= MAX_ATTACHMENT_TEXT ==> length / 4 * 3 <= MAX_ATTACHMENT + 1
  {
  }

  /** What passes decodes to at most 8 MiB and one byte. */
  lemma AcceptedIsBounded(s: string)
    requires AttachmentAccepted(s)
    ensures IsBase64(s) && |Decode(s)| <= MAX_ATTACHMENT + 1
  {
    BoundsFit(0, |s|);
    PatternsAgree(s);
    SizeIsExact(s);
  }

  lemma ShortIsAccepted(s: string)
    requires IsBase64(s) && |s| % 4 == 0 && |s| <= MAX_ATTACHMENT_TEXT
    ensures AttachmentAccepted(s)
  {
    PatternsAgree(s);
  }

  /** Every encoding of up to 8 MiB passes. */
  lemma SmallIsAccepted(bytes: seq<Byte>)
    requires |bytes| <= MAX_ATTACHMENT
    ensures AttachmentAccepted(Encode(bytes))
  {
    BoundsFit(|bytes|, 0);
    DecodeInvertsEncode(bytes);
    EncodedLength(bytes);
    ShortIsAccepted(Encode(bytes));
  }

  /** The boundary accepts every encoding of up to 8 MiB, and nothing that decodes to more than 8 MiB and one byte. */
  lemma AttachmentBoundIsTight(bytes: seq<Byte>, s: string)
    ensures |bytes| <= MAX_ATTACHMENT ==> AttachmentAccepted(Encode(bytes))
    ensures AttachmentAccepted(s) ==> IsBase64(s) && |Decode(s)| <= MAX_ATTACHMENT + 1
  {
    if |bytes| <= MAX_ATTACHMENT {
      SmallIsAccepted(bytes);
    }
    if AttachmentAccepted(s) {
      AcceptedIsBounded(s);
    }
  }
}
