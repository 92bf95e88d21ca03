/**
  Numbers as JSON writes them: a finite number is a sign, decimal digits and a
  point position, printed as section 6.1.6.1.20 of ECMA-262 prescribes and read
  back with the number grammar of section 6 of RFC 8259.
 */
module JsonNumbers {
  import opened Wrappers
  import Decimals

  /** A string is a sequence of UTF-16 code units. */
  type Unit = u: int | 0 <= u < 0x1_0000
  type Text = seq<Unit>
  type Digit = d: int | 0 <= d < 10

  /** `Decimal(neg, ds, n)` is the number 0.ds times ten to the n. */
  datatype Number = Zero | Decimal(neg: bool, digits: seq<Digit>, point: int) | NotFinite

  /** The digits are the shortest ones: none to spare at either end. */
  predicate Shortest(ds: seq<Digit>) {
    ds != [] && ds[0] != 0 && ds[|ds| - 1] != 0
  }

  predicate IsFinite(x: Number) {
    x.Zero? || (x.Decimal? && Shortest(x.digits))
  }

  /** The parts of a number's text; an absent exponent is `None`. */
  datatype Layout = Layout(neg: bool, whole: seq<Digit>, fraction: seq<Digit>, exponent: Option<int>)

  function Zeros(k: nat): (ds: seq<Digit>)
    ensures |ds| == k && forall i | 0 <= i < k :: ds[i] == 0
  {
    seq(k, i => 0)
  }

  // ----- printing ----------------------------------------------------------

  function LayoutOf(x: Number): Layout
    requires IsFinite(x)
  {
    if x.Zero? then Layout(false, [0], [], None)
    else
      var k, n := |x.digits|, x.point;
      if k <= n <= 21 then Layout(x.neg, x.digits + Zeros(n - k), [], None)
      else if 0 < n <= 21 then Layout(x.neg, x.digits[..n], x.digits[n..], None)
      else if -6 < n <= 0 then Layout(x.neg, [0], Zeros(0 - n) + x.digits, None)
      else Layout(x.neg, [x.digits[0]], x.digits[1..], Some(n - 1))
  }

  const MINUS: Unit := 0x2D
  const PLUS: Unit := 0x2B
  const POINT: Unit := 0x2E
  const LOWER_E: Unit := 0x65
  const UPPER_E: Unit := 0x45

  function DigitUnit(d: Digit): Unit { d as int + 0x30 }

  function DigitText(ds: seq<Digit>): (t: Text)
    ensures |t| == |ds|
  {
    if ds == [] then [] else [DigitUnit(ds[0])] + DigitText(ds[1..])
  }

  function NatDigits(n: nat): (ds: seq<Digit>)
    ensures ds != []
  {
    if n < 10 then [n] else NatDigits(n / 10) + [n % 10]
  }

  function Magnitude(e: int): nat { if e < 0 then -e else e }

  function FractionText(fraction: seq<Digit>): Text {
    if fraction == [] then [] else [POINT] + DigitText(fraction)
  }

  function ExponentText(exponent: Option<int>): Text {
    if exponent.None? then []
    else [LOWER_E, if exponent.value < 0 then MINUS else PLUS] + DigitText(NatDigits(Magnitude(exponent.value)))
  }

  function SignText(neg: bool): Text { if neg then [MINUS] else [] }

  function LayoutText(l: Layout): Text {
    SignText(l.neg) + (DigitText(l.whole) + (FractionText(l.fraction) + ExponentText(l.exponent)))
  }

  function NumberText(x: Number): Text
    requires IsFinite(x)
  {
    LayoutText(LayoutOf(x))
  }

  // ----- reading -----------------------------------------------------------

  predicate IsDigit(u: Unit) { 0x30 <= u <= 0x39 }

  datatype Read<T> = Read(value: T, rest: Text)

  function ReadDigits(t: Text): (r: Read<seq<Digit>>)
    ensures |r.value| + |r.rest| == |t|
  {
    if t == [] || !IsDigit(t[0]) then Read([], t)
    else
      var more := ReadDigits(t[1..]);
      Read([t[0] - 0x30] + more.value, more.rest)
  }

  function NatValue(ds: seq<Digit>): nat {
    if ds == [] then 0 else NatValue(ds[..|ds| - 1]) * 10 + ds[|ds| - 1]
  }

  function ReadFraction(t: Text): (r: Option<Read<seq<Digit>>>)
    ensures r.Some? ==> |r.value.rest| <= |t|
  {
    if t == [] || t[0] != POINT then Some(Read([], t))
    else
      var ds := ReadDigits(t[1..]);
      if ds.value == [] then None else Some(ds)
  }

  function ReadExponent(t: Text): (r: Option<Read<Option<int>>>)
    ensures r.Some? ==> |r.value.rest| <= |t|
  {
    if t == [] || (t[0] != LOWER_E && t[0] != UPPER_E) then Some(Read(None, t))
    else
      var signed := |t| > 1 && (t[1] == MINUS || t[1] == PLUS);
      var ds := ReadDigits(if signed then t[2..] else t[1..]);
      if ds.value == [] then None
      else
        var value: int := NatValue(ds.value);
        Some(Read(Some(if signed && t[1] == MINUS then -value else value), ds.rest))
  }

  function ReadLayout(t: Text): (r: Option<Read<Layout>>)
    ensures r.Some? ==> |r.value.rest| < |t|
  {
    if t != [] && t[0] == MINUS then ReadUnsigned(true, t[1..]) else ReadUnsigned(false, t)
  }

  function ReadUnsigned(neg: bool, t: Text): (r: Option<Read<Layout>>)
    ensures r.Some? ==> |r.value.rest| < |t|
  {
    var whole := ReadDigits(t);
    if whole.value == [] || (whole.value[0] == 0 && |whole.value| > 1) then None
    else
      var fraction := ReadFraction(whole.rest);
      if fraction.None? then None
      else
        var exponent := ReadExponent(fraction.value.rest);
        if exponent.None? then None
        else Some(Read(Layout(neg, whole.value, fraction.value.value, exponent.value.value), exponent.value.rest))
  }

  /** Strip the digits that are to spare. */
  function Normalize(neg: bool, ds: seq<Digit>, point: int): (x: Number)
    ensures IsFinite(x)
    decreases |ds|
  {
    if ds == [] then Zero
    else if ds[0] == 0 then Normalize(neg, ds[1..], point - 1)
    else if ds[|ds| - 1] == 0 then Normalize(neg, ds[..|ds| - 1], point)
    else Decimal(neg, ds, point)
  }

  function Meaning(l: Layout): (x: Number)
    ensures IsFinite(x)
  {
    Normalize(l.neg, l.whole + l.fraction, |l.whole| + l.exponent.GetOr(0))
  }

  function ReadNumber(t: Text): (r: Option<Read<Number>>)
    ensures r.Some? ==> |r.value.rest| < |t| && IsFinite(r.value.value)
  {
    var l := ReadLayout(t);
    if l.None? then None else Some(Read(Meaning(l.value.value), l.value.rest))
  }

  // ----- reading what was printed ------------------------------------------

  /** What follows cannot be taken for a continuation of a number. */
  predicate Ends(rest: Text) {
    rest == [] || (!IsDigit(rest[0]) && rest[0] !in {POINT, LOWER_E, UPPER_E})
  }

  predicate NoDigitNext(rest: Text) { rest == [] || !IsDigit(rest[0]) }

  lemma {:induction false} DigitsReadBack(ds: seq<Digit>, rest: Text)
    requires NoDigitNext(rest)
    ensures ReadDigits(DigitText(ds) + rest) == Read(ds, rest)
  {
    var t := DigitText(ds) + rest;
    if ds == [] {
      assert t == rest;
    } else {
      DigitsReadBack(ds[1..], rest);
      assert t[0] == DigitUnit(ds[0]);
      assert t[1..] == DigitText(ds[1..]) + rest;
      assert [ds[0]] + ds[1..] == ds;
    }
  }

  lemma {:induction false} NatReadsBack(n: nat)
    ensures NatValue(NatDigits(n)) == n
  {
    if n >= 10 {
      NatReadsBack(n / 10);
      assert NatDigits(n)[..|NatDigits(n)| - 1] == NatDigits(n / 10);
    }
  }

  lemma FractionReadsBack(fraction: seq<Digit>, rest: Text)
    requires NoDigitNext(rest) && (rest == [] || rest[0] != POINT)
    ensures ReadFraction(FractionText(fraction) + rest) == Some(Read(fraction, rest))
  {
    var t := FractionText(fraction) + rest;
    if fraction == [] {
      assert t == rest;
    } else {
      DigitsReadBack(fraction, rest);
      assert t == [POINT] + (DigitText(fraction) + rest);
      assert t[0] == POINT && t[1..] == DigitText(fraction) + rest;
    }
  }

  lemma ExponentReadsBack(exponent: Option<int>, rest: Text)
    requires Ends(rest)
    ensures ReadExponent(ExponentText(exponent) + rest) == Some(Read(exponent, rest))
  {
    if exponent.None? {
      assert ExponentText(exponent) + rest == rest;
    } else {
      var ds := NatDigits(Magnitude(exponent.value));
      DigitsReadBack(ds, rest);
      NatReadsBack(Magnitude(exponent.value));
      var t := ExponentText(exponent) + rest;
      assert t[0] == LOWER_E && t[2..] == DigitText(ds) + rest;
    }
  }

  lemma DigitTextStart(ds: seq<Digit>)
    requires ds != []
    ensures DigitText(ds)[0] == DigitUnit(ds[0])
  {
  }

  lemma UnsignedReadsBack(l: Layout, rest: Text)
    requires Ends(rest) && l.whole != [] && (l.whole[0] == 0 ==> |l.whole| == 1)
    ensures ReadUnsigned(l.neg, DigitText(l.whole) + (FractionText(l.fraction) + (ExponentText(l.exponent) + rest)))
            == Some(Read(l, rest))
  {
    var exponent := ExponentText(l.exponent) + rest;
    ExponentReadsBack(l.exponent, rest);
    FractionReadsBack(l.fraction, exponent);
    DigitsReadBack(l.whole, FractionText(l.fraction) + exponent);
  }

  lemma Regroup(a: Text, b: Text, c: Text, d: Text, rest: Text)
    ensures (a + (b + (c + d))) + rest == a + (b + (c + (d + rest)))
  {
  }

  lemma LayoutReadsBack(l: Layout, rest: Text)
    requires Ends(rest) && l.whole != [] && (l.whole[0] == 0 ==> |l.whole| == 1)
    ensures ReadLayout(LayoutText(l) + rest) == Some(Read(l, rest))
  {
    Regroup(SignText(l.neg), DigitText(l.whole), FractionText(l.fraction), ExponentText(l.exponent), rest);
    UnsignedReadsBack(l, rest);
    DigitTextStart(l.whole);
    SignReadsBack(l.neg, DigitText(l.whole) + (FractionText(l.fraction) + (ExponentText(l.exponent) + rest)));
  }

  lemma SignReadsBack(neg: bool, unsigned: Text)
    requires unsigned != [] && unsigned[0] != MINUS
    ensures ReadLayout(SignText(neg) + unsigned) == ReadUnsigned(neg, unsigned)
  {
    var t := SignText(neg) + unsigned;
    assert if neg then t[0] == MINUS && t[1..] == unsigned else t == unsigned;
  }

  lemma {:induction false} LeadingZerosGo(neg: bool, k: nat, ds: seq<Digit>, point: int)
    requires Shortest(ds)
    ensures Normalize(neg, Zeros(k) + ds, point) == Decimal(neg, ds, point - k)
  {
    if k == 0 {
      assert Zeros(0) + ds == ds;
    } else {
      LeadingZerosGo(neg, k - 1, ds, point - 1);
      var all := Zeros(k) + ds;
      assert all[0] == 0 && all[1..] == Zeros(k - 1) + ds;
    }
  }

  lemma {:induction false} TrailingZerosGo(neg: bool, ds: seq<Digit>, k: nat, point: int)
    requires Shortest(ds)
    ensures Normalize(neg, ds + Zeros(k), point) == Decimal(neg, ds, point)
  {
    if k == 0 {
      assert ds + Zeros(0) == ds;
    } else {
      TrailingZerosGo(neg, ds, k - 1, point);
      assert (ds + Zeros(k))[..|ds| + k - 1] == ds + Zeros(k - 1);
    }
  }

  lemma WholeMeansNumber(neg: bool, ds: seq<Digit>, n: int)
    requires Shortest(ds) && |ds| <= n
    ensures Meaning(Layout(neg, ds + Zeros(n - |ds|), [], None)) == Decimal(neg, ds, n)
  {
    TrailingZerosGo(neg, ds, n - |ds|, n);
    assert (ds + Zeros(n - |ds|)) + [] == ds + Zeros(n - |ds|);
  }

  lemma SmallMeansNumber(neg: bool, ds: seq<Digit>, n: int)
    requires Shortest(ds) && n <= 0
    ensures Meaning(Layout(neg, [0], Zeros(0 - n) + ds, None)) == Decimal(neg, ds, n)
  {
    LeadingZerosGo(neg, 1 - n, ds, 1);
    assert [0] + (Zeros(0 - n) + ds) == Zeros(1 - n) + ds;
  }

  /** The digits split somewhere between the whole and the fractional part. */
  lemma SplitMeansNumber(l: Layout, ds: seq<Digit>, n: int)
    requires Shortest(ds) && l.whole + l.fraction == ds && |l.whole| + l.exponent.GetOr(0) == n
    ensures Meaning(l) == Decimal(l.neg, ds, n)
  {
  }

  lemma LayoutMeansNumber(x: Number)
    requires IsFinite(x)
    ensures Meaning(LayoutOf(x)) == x
  {
    if x.Zero? {
      assert [0] + [] == [0];
    } else {
      var ds, n := x.digits, x.point;
      if |ds| <= n <= 21 {
        WholeMeansNumber(x.neg, ds, n);
      } else if 0 < n <= 21 {
        assert ds[..n] + ds[n..] == ds;
        SplitMeansNumber(LayoutOf(x), ds, n);
      } else if -6 < n <= 0 {
        SmallMeansNumber(x.neg, ds, n);
      } else {
        assert [ds[0]] + ds[1..] == ds;
        SplitMeansNumber(LayoutOf(x), ds, n);
      }
    }
  }

  /** Every finite number is read back from its text, whatever may follow it. */
  lemma NumberReadsBack(x: Number, rest: Text)
    requires IsFinite(x) && Ends(rest)
    ensures ReadNumber(NumberText(x) + rest) == Some(Read(x, rest))
  {
    LayoutMeansNumber(x);
    LayoutReadsBack(LayoutOf(x), rest);
  }

  // ----- the text, literally -----------------------------------------------

  function Ascii(s: string): (t: Text)
    ensures |t| == |s| && forall i | 0 <= i < |s| && s[i] <= '~' :: t[i] == s[i] as int
  {
    seq(|s|, i requires 0 <= i < |s| => if s[i] <= '~' then s[i] as int else 0)
  }

  /** The digits as characters. */
  predicate Shows(t: Text, ds: seq<Digit>) {
    |t| == |ds| && forall i | 0 <= i < |ds| :: t[i] == '0' as int + ds[i]
  }

  lemma {:induction false} DigitTextShows(ds: seq<Digit>)
    ensures Shows(DigitText(ds), ds)
  {
    if ds != [] {
      DigitTextShows(ds[1..]);
      assert forall i | 0 < i < |ds| :: DigitText(ds)[i] == DigitText(ds[1..])[i - 1] && ds[i] == ds[1..][i - 1];
    }
  }

  lemma {:induction false} ExponentDigitsAreDecimal(n: nat)
    ensures Ascii(Decimals.Decimal(n)) == DigitText(NatDigits(n))
  {
    if n < 10 {
      assert Ascii(Decimals.Decimal(n)) == [DigitUnit(n)] == DigitText([n]);
    } else {
      ExponentDigitsAreDecimal(n / 10);
      DigitTextShows(NatDigits(n));
      DigitTextShows(NatDigits(n / 10));
      var t, d := Ascii(Decimals.Decimal(n)), Decimals.Decimal(n);
      assert d == Decimals.Decimal(n / 10) + [('0' as int + n % 10) as char];
      assert forall i | 0 <= i < |d| - 1 :: t[i] == Ascii(Decimals.Decimal(n / 10))[i];
      assert t == DigitText(NatDigits(n));
    }
  }

  /** Below ten to the 21 without a fraction: the digits, and zeros up to the point. */
  predicate SpellsWhole(t: Text, d: Text, n: int) {
    |d| <= n <= 21 && |t| == n && t[..|d|] == d && forall i | |d| <= i < n :: t[i] == '0' as int
  }

  predicate SpellsSplit(t: Text, d: Text, n: int) {
    0 < n < |d| && n <= 21 && t == d[..n] + (Ascii(".") + d[n..])
  }

  /** Below one, down to a millionth: zeros behind the point, then the digits. */
  predicate SpellsSmall(t: Text, d: Text, n: int) {
    && -6 < n <= 0 && |t| == 2 - n + |d| && t[..2] == Ascii("0.") && t[2 - n..] == d
    && forall i | 2 <= i < 2 - n :: t[i] == '0' as int
  }

  /** Everything else has an exponent, always with its sign, and one digit before the point. */
  predicate SpellsExponent(t: Text, d: Text, n: int) {
    && !(-6 < n <= 21) && d != []
    && t == d[..1] + ((if |d| == 1 then [] else Ascii(".") + d[1..])
                      + (Ascii(if n <= 0 then "e-" else "e+") + Ascii(Decimals.Decimal(Magnitude(n - 1)))))
  }

  /** `t` is 0.d times ten to the n, without the sign. */
  predicate Spells(t: Text, d: Text, n: int) {
    SpellsWhole(t, d, n) || SpellsSplit(t, d, n) || SpellsSmall(t, d, n) || SpellsExponent(t, d, n)
  }

  lemma ShownOnce(t: Text, u: Text, ds: seq<Digit>)
    requires Shows(t, ds) && Shows(u, ds)
    ensures t == u
  {
  }

  lemma PartsShow(t: Text, ds: seq<Digit>, n: nat)
    requires Shows(t, ds) && n <= |ds|
    ensures Shows(t[..n], ds[..n]) && Shows(t[n..], ds[n..])
  {
  }

  lemma DigitTextSplits(ds: seq<Digit>, n: nat)
    requires n <= |ds|
    ensures DigitText(ds[..n]) == DigitText(ds)[..n] && DigitText(ds[n..]) == DigitText(ds)[n..]
  {
    DigitTextShows(ds);
    DigitTextShows(ds[..n]);
    DigitTextShows(ds[n..]);
    PartsShow(DigitText(ds), ds, n);
    ShownOnce(DigitText(ds[..n]), DigitText(ds)[..n], ds[..n]);
    ShownOnce(DigitText(ds[n..]), DigitText(ds)[n..], ds[n..]);
  }

  lemma WholeIsLiteral(ds: seq<Digit>, n: int)
    requires |ds| <= n <= 21
    ensures SpellsWhole(DigitText(ds + Zeros(n - |ds|)), DigitText(ds), n)
  {
    var all := ds + Zeros(n - |ds|);
    var t := DigitText(all);
    assert all[..|ds|] == ds;
    DigitTextSplits(all, |ds|);
    forall i | |ds| <= i < n ensures t[i] == '0' as int {
      DigitTextShows(all);
      assert all[i] == 0;
    }
  }

  lemma SignsAreLiteral()
    ensures [POINT] == Ascii(".") && [MINUS] == Ascii("-") && [DigitUnit(0)] == Ascii("0")
    ensures [LOWER_E, MINUS] == Ascii("e-") && [LOWER_E, PLUS] == Ascii("e+")
  {
  }

  lemma SplitIsLiteral(ds: seq<Digit>, n: int)
    requires 0 < n < |ds| && n <= 21
    ensures SpellsSplit(DigitText(ds[..n]) + ([POINT] + DigitText(ds[n..])), DigitText(ds), n)
  {
    DigitTextSplits(ds, n);
    SignsAreLiteral();
  }

  lemma SmallIsLiteral(ds: seq<Digit>, n: int)
    requires -6 < n <= 0
    ensures SpellsSmall([DigitUnit(0)] + ([POINT] + DigitText(Zeros(0 - n) + ds)), DigitText(ds), n)
  {
    DigitTextShows(ds);
    DigitTextShows(Zeros(0 - n) + ds);
    var d, t := DigitText(ds), [DigitUnit(0)] + ([POINT] + DigitText(Zeros(0 - n) + ds));
    assert t[..2] == Ascii("0.");
    assert t[2 - n..] == d;
  }

  lemma ExponentTextIsLiteral(e: int)
    ensures ExponentText(Some(e)) == Ascii(if e < 0 then "e-" else "e+") + Ascii(Decimals.Decimal(Magnitude(e)))
  {
    ExponentDigitsAreDecimal(Magnitude(e));
    SignsAreLiteral();
  }

  lemma FractionTextIsLiteral(ds: seq<Digit>)
    requires ds != []
    ensures var d := DigitText(ds);
            FractionText(ds[1..]) == if |d| == 1 then [] else Ascii(".") + d[1..]
  {
    DigitTextSplits(ds, 1);
    SignsAreLiteral();
  }

  lemma FirstDigitText(ds: seq<Digit>)
    requires ds != []
    ensures DigitText([ds[0]]) == DigitText(ds)[..1]
  {
    DigitTextSplits(ds, 1);
    assert ds[..1] == [ds[0]];
  }

  lemma ExponentIsLiteral(ds: seq<Digit>, n: int)
    requires ds != [] && !(-6 < n <= 21)
    ensures SpellsExponent(DigitText([ds[0]]) + (FractionText(ds[1..]) + ExponentText(Some(n - 1))), DigitText(ds), n)
  {
    FirstDigitText(ds);
    FractionTextIsLiteral(ds);
    ExponentTextIsLiteral(n - 1);
  }

  function UnsignedText(l: Layout): Text {
    DigitText(l.whole) + (FractionText(l.fraction) + ExponentText(l.exponent))
  }

  lemma NothingFollows(t: Text)
    ensures t + ([] + []) == t && t + [] == t
  {
  }

  lemma OneDigitText(d: Digit)
    ensures DigitText([d]) == [DigitUnit(d)]
  {
  }

  /** The unsigned text in its four layouts. */
  predicate InFull(t: Text, ds: seq<Digit>, n: int)
    requires ds != []
  {
    if |ds| <= n <= 21 then t == DigitText(ds + Zeros(n - |ds|))
    else if 0 < n <= 21 then t == DigitText(ds[..n]) + ([POINT] + DigitText(ds[n..]))
    else if -6 < n <= 0 then t == [DigitUnit(0)] + ([POINT] + DigitText(Zeros(0 - n) + ds))
    else t == DigitText([ds[0]]) + (FractionText(ds[1..]) + ExponentText(Some(n - 1)))
  }

  lemma UnsignedInFull(x: Number)
    requires x.Decimal? && IsFinite(x)
    ensures InFull(UnsignedText(LayoutOf(x)), x.digits, x.point)
  {
    var l := LayoutOf(x);
    NothingFollows(DigitText(l.whole));
    NothingFollows(FractionText(l.fraction));
    OneDigitText(0);
  }

  lemma PositiveIsLiteral(ds: seq<Digit>, n: int, t: Text)
    requires ds != [] && InFull(t, ds, n)
    ensures Spells(t, DigitText(ds), n)
  {
    if |ds| <= n <= 21 {
      WholeIsLiteral(ds, n);
    } else if 0 < n <= 21 {
      SplitIsLiteral(ds, n);
    } else if -6 < n <= 0 {
      SmallIsLiteral(ds, n);
    } else {
      ExponentIsLiteral(ds, n);
    }
  }

  lemma ZeroIsLiteral()
    ensures NumberText(Zero) == Ascii("0")
  {
    OneDigitText(0);
    NothingFollows([DigitUnit(0)]);
    SignsAreLiteral();
    assert [] + [DigitUnit(0)] == [DigitUnit(0)];
  }

  lemma SignComesFirst(l: Layout)
    ensures LayoutText(l) == if l.neg then Ascii("-") + UnsignedText(l) else UnsignedText(l)
  {
    SignsAreLiteral();
    assert [] + UnsignedText(l) == UnsignedText(l);
  }

  lemma UnsignedIsLiteral(x: Number)
    requires x.Decimal? && IsFinite(x)
    ensures Shows(DigitText(x.digits), x.digits) && Spells(UnsignedText(LayoutOf(x)), DigitText(x.digits), x.point)
  {
    DigitTextShows(x.digits);
    UnsignedInFull(x);
    PositiveIsLiteral(x.digits, x.point, UnsignedText(LayoutOf(x)));
  }

  /** The text of a number, character by character. */
  lemma NumberTextIsLiteral(x: Number) returns (digits: Text, unsigned: Text)
    requires IsFinite(x)
    ensures x.Zero? ==> NumberText(x) == Ascii("0")
    ensures x.Decimal? ==>
              && Shows(digits, x.digits) && Spells(unsigned, digits, x.point)
              && NumberText(x) == if x.neg then Ascii("-") + unsigned else unsigned
  {
    digits, unsigned := [], [];
    if x.Zero? {
      ZeroIsLiteral();
    } else {
      digits, unsigned := DigitText(x.digits), UnsignedText(LayoutOf(x));
      UnsignedIsLiteral(x);
      SignComesFirst(LayoutOf(x));
    }
  }
}
