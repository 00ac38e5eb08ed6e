/** src/casino_bot/services/token_amounts.py: token units, their decimal text, and the parser.

  Quotients are computed in the default decimal context: 28 significant digits, rounding half
  to even. */
module TokenAmounts {
  import opened Common

  datatype Result = Ok(value: int) | Empty | Invalid | NotWhole | Negative | BadScale

  function Pow10(k: nat): (p: nat)
    ensures p > 0
  {
    if k == 0 then 1 else 10 * Pow10(k - 1)
  }

  /** coefficient * 10 ^ exponent */
  datatype Decimal = Decimal(coefficient: nat, exponent: int)

  /** Python's Decimal.normalize: no trailing zeros in the coefficient. */
  function Normalize(c: nat, e: int): Decimal {
    if c == 0 then Decimal(0, 0)
    else if c % 10 == 0 then Normalize(c / 10, e + 1)
    else Decimal(c, e)
  }

  function Digit(d: nat): char
    requires d < 10
  {
    '0' + d as char
  }

  predicate IsDigit(c: char) {
    '0' <= c <= '9'
  }

  predicate AllDigits(s: string) {
    forall i :: 0 <= i < |s| ==> IsDigit(s[i])
  }

  function Digits(n: nat): (s: string)
    ensures s != [] && AllDigits(s)
  {
    if n < 10 then [Digit(n)] else Digits(n / 10) + [Digit(n % 10)]
  }

  function Zeros(n: nat): (s: string)
    ensures |s| == n && (forall i :: 0 <= i < n ==> s[i] == '0')
  {
    if n == 0 then [] else Zeros(n - 1) + ['0']
  }

  function Whole(c: nat, zeros: nat): string {
    Digits(c) + Zeros(zeros)
  }

  /** The digits, with enough zeros before them for one digit before the point. */
  function Padded(c: nat, places: nat): (s: string)
    ensures |s| > places
  {
    var digits := Digits(c);
    Zeros(if places + 1 > |digits| then places + 1 - |digits| else 0) + digits
  }

  function Pointed(c: nat, places: nat): string {
    var s := Padded(c, places);
    s[..|s| - places] + "." + s[|s| - places..]
  }

  /** Fixed-point text of a decimal, as format(d, "f") prints it. */
  function FormatFixed(d: Decimal): string {
    if d.exponent >= 0 then Whole(d.coefficient, d.exponent) else Pointed(d.coefficient, 0 - d.exponent)
  }

  /** Position of the first point, or the length. */
  function PointAt(s: string): (i: nat)
    ensures i <= |s| && (i < |s| ==> s[i] == '.') && (forall j :: 0 <= j < i ==> s[j] != '.')
  {
    if s == [] || s[0] == '.' then 0 else 1 + PointAt(s[1..])
  }

  predicate HasPoint(s: string) {
    PointAt(s) < |s|
  }

  function RStrip(s: string, c: char): string {
    if s != [] && s[|s| - 1] == c then RStrip(s[..|s| - 1], c) else s
  }

  function Magnitude(units: int): nat {
    if units < 0 then -units else units
  }

  /** The least coefficient of 28 digits; full coefficients lie between it and ten times it. */
  const FULL: nat := 1_000_000_000_000_000_000_000_000_000

  /** num / den * 10 ^ exponent */
  datatype Ratio = Ratio(num: nat, den: nat, exponent: int)

  function ScaleUp(num: nat, den: nat, e: int): (r: Ratio)
    requires den > 0
    ensures r.num == num && r.den > 0
    decreases num - den
  {
    if num < den * (10 * FULL) then Ratio(num, den, e) else ScaleUp(num, den * 10, e + 1)
  }

  function ScaleDown(num: nat, den: nat, e: int): (r: Ratio)
    requires num > 0 && den > 0
    ensures r.den == den
    decreases den * FULL - num
  {
    if num >= den * FULL then Ratio(num, den, e) else ScaleDown(num * 10, den, e - 1)
  }

  /** The quotient, shifted so that its whole part has 28 digits. */
  function Shifted(mag: nat, scale: nat): (r: Ratio)
    requires mag > 0 && scale > 0
    ensures r.den > 0
  {
    var up := ScaleUp(mag, scale, 0);
    ScaleDown(up.num, up.den, up.exponent)
  }

  function RoundHalfEven(num: nat, den: nat): nat
    requires den > 0
  {
    var q, r := num / den, num % den;
    if 2 * r > den || (2 * r == den && q % 2 == 1) then q + 1 else q
  }

  /** Decimal(mag) / Decimal(scale), normalised. */
  function Quotient(mag: nat, scale: nat): Decimal
    requires scale > 0
  {
    if mag == 0 then Decimal(0, 0)
    else
      var r := Shifted(mag, scale);
      Normalize(RoundHalfEven(r.num, r.den), r.exponent)
  }

  function StripZeros(text: string): string {
    if HasPoint(text) then RStrip(RStrip(text, '0'), '.') else text
  }

  function Sign(units: int, text: string): string {
    if units < 0 then "-" + text else text
  }

  /** The signed token quantity of an amount of units; None where the source raises ValueError. */
  function FormatSigned(units: int, scale: int): (text: Option<string>)
    ensures text.None? <==> scale < 1
  {
    if scale < 1 then None
    else Some(Sign(units, StripZeros(FormatFixed(Quotient(Magnitude(units), scale)))))
  }

  // ----- reading decimal text -----

  function Val(s: string): nat
    requires AllDigits(s)
  {
    if s == [] then 0 else 10 * Val(s[..|s| - 1]) + (s[|s| - 1] as int - '0' as int)
  }

  /** num / 10 ^ places */
  datatype Fraction = Fraction(num: int, places: nat)

  function ReadUnsigned(s: string): Option<Fraction> {
    var i := PointAt(s);
    var whole, part := s[..i], if i < |s| then s[i + 1..] else [];
    if !AllDigits(whole) || !AllDigits(part) || (whole == [] && part == []) then None
    else
      Some(Fraction(Val(whole + part), |part|))
  }

  /** Decimal(text) for plain notation: a sign, digits, and at most one point. */
  function ReadDecimal(s: string): Option<Fraction> {
    if s != [] && (s[0] == '-' || s[0] == '+') then
      var r := ReadUnsigned(s[1..]);
      if r.Some? && s[0] == '-' then Some(r.value.(num := -r.value.num)) else r
    else ReadUnsigned(s)
  }

  /** None where the source raises ValueError. */
  function TokensWholeToUnits(tokens: int, scale: int): Option<int> {
    if scale < 1 || tokens < 0 then None else Some(tokens * scale)
  }

  /** The white space that Python's str.strip removes. */
  predicate IsSpace(c: char)
    ensures c in {' ', '\t', '\n', '\r'} ==> IsSpace(c)
  {
    var n := c as int;
    || 9 <= n <= 13 || 28 <= n <= 32 || n in {0x85, 0xA0, 0x1680}
    || 0x2000 <= n <= 0x200A || n in {0x2028, 0x2029, 0x202F, 0x205F, 0x3000}
  }

  function LStripped(s: string): string {
    if s != [] && IsSpace(s[0]) then LStripped(s[1..]) else s
  }

  function Stripped(s: string): string {
    if s != [] && IsSpace(s[|s| - 1]) then Stripped(s[..|s| - 1]) else LStripped(s)
  }

  function ParseWholeTokens(raw: string, scale: int): Result {
    var s := Stripped(raw);
    if s == [] then Empty
    else
      var d := ReadDecimal(s);
      if d.None? then Invalid
      else if d.value.num % Pow10(d.value.places) != 0 then NotWhole
      else if d.value.num < 0 then Negative
      else if scale < 1 then BadScale
      else Ok((d.value.num / Pow10(d.value.places)) * scale)
  }

  // ----- digits -----

  lemma TenTimes(a: int, b: int)
    ensures 10 * (a * b) == a * (10 * b)
  {
  }

  lemma {:induction false} PowAdd(a: nat, b: nat)
    ensures Pow10(a + b) == Pow10(a) * Pow10(b)
  {
    if a > 0 {
      PowAdd(a - 1, b);
      assert Pow10(a + b) == 10 * Pow10(a - 1 + b);
      assert 10 * (Pow10(a - 1) * Pow10(b)) == (10 * Pow10(a - 1)) * Pow10(b);
    }
  }

  lemma {:induction false} ValOfDigits(n: nat)
    ensures Val(Digits(n)) == n
    ensures n > 0 ==> Digits(n)[0] != '0'
    ensures Digits(n)[|Digits(n)| - 1] == Digit(n % 10)
  {
    if n >= 10 {
      ValOfDigits(n / 10);
      assert Digits(n)[..|Digits(n)| - 1] == Digits(n / 10);
      assert Digits(n)[0] == Digits(n / 10)[0];
    }
  }

  lemma {:induction false} ValOfPadded(n: nat, s: string)
    requires AllDigits(s)
    ensures AllDigits(Zeros(n) + s) && Val(Zeros(n) + s) == Val(s)
  {
    if s == [] {
      assert Zeros(n) + s == Zeros(n);
      ValOfZeros(n);
    } else {
      assert (Zeros(n) + s)[..|Zeros(n) + s| - 1] == Zeros(n) + s[..|s| - 1];
      ValOfPadded(n, s[..|s| - 1]);
    }
  }

  lemma {:induction false} ValOfZeros(n: nat)
    ensures Val(Zeros(n)) == 0
  {
    if n > 0 {
      assert Zeros(n)[..n - 1] == Zeros(n - 1);
      ValOfZeros(n - 1);
    }
  }

  lemma {:induction false} ValOfShifted(s: string, n: nat)
    requires AllDigits(s)
    ensures AllDigits(s + Zeros(n)) && Val(s + Zeros(n)) == Val(s) * Pow10(n)
  {
    if n == 0 {
      assert s + Zeros(0) == s;
    } else {
      assert (s + Zeros(n))[..|s| + n - 1] == s + Zeros(n - 1);
      ValOfShifted(s, n - 1);
      TenTimes(Val(s), Pow10(n - 1));
    }
  }

  /** Normalising moves zeros from the coefficient to the exponent. */
  lemma {:induction false} NormalizeExact(c: nat, e: int)
    ensures var d := Normalize(c, e);
      && (c == 0 ==> d == Decimal(0, 0))
      && (c > 0 ==> d.coefficient % 10 != 0 && d.exponent >= e && c == d.coefficient * Pow10(d.exponent - e))
  {
    if c > 0 && c % 10 == 0 {
      NormalizeExact(c / 10, e + 1);
      var d := Normalize(c / 10, e + 1);
      assert c == 10 * (c / 10);
      assert Pow10(d.exponent - e) == 10 * Pow10(d.exponent - e - 1);
      TenTimes(d.coefficient, Pow10(d.exponent - e - 1));
    }
  }

  // ----- the printed text -----

  /** No redundant zeros: no leading zero except before the point, no trailing zero after it. */
  ghost predicate Canonical(text: string) {
    var i := PointAt(text);
    && AllDigits(text[..i]) && i > 0 && (text[0] == '0' ==> i == 1)
    && (i < |text| ==> AllDigits(text[i + 1..]) && i + 1 < |text| && text[|text| - 1] != '0')
  }

  lemma {:induction false} PointAfterDigits(a: string, b: string)
    requires AllDigits(a)
    ensures PointAt(a + "." + b) == |a|
  {
    if a == [] {
      assert a + "." + b == "." + b;
    } else {
      assert (a + "." + b)[1..] == a[1..] + "." + b;
      PointAfterDigits(a[1..], b);
    }
  }

  lemma {:induction false} NoPoint(a: string)
    requires AllDigits(a)
    ensures PointAt(a) == |a|
  {
    if a != [] {
      NoPoint(a[1..]);
    }
  }

  /** What printed text must look like to be read back and survive the stripping. */
  ghost predicate Clean(text: string) {
    text != [] && text[0] != '-' && text[0] != '+' && !IsSpace(text[0]) && !IsSpace(text[|text| - 1])
  }

  /** Text that reads back as f, in one piece and with nothing to strip. */
  ghost predicate Printed(text: string, f: Fraction) {
    && Canonical(text) && Clean(text) && ReadUnsigned(text) == Some(f)
    && (HasPoint(text) ==> text[|text| - 1] != '0' && text[|text| - 1] != '.')
  }

  lemma DigitsAreClean(s: string)
    requires s != [] && IsDigit(s[0]) && IsDigit(s[|s| - 1])
    ensures Clean(s)
  {
  }

  lemma WholeText(c: nat, e: nat)
    requires c % 10 != 0 || (c == 0 && e == 0)
    ensures Printed(Whole(c, e), Fraction(c * Pow10(e), 0))
  {
    var text := Digits(c) + Zeros(e);
    ValOfDigits(c);
    ValOfShifted(Digits(c), e);
    NoPoint(text);
    assert text[..|text|] == text && text + [] == text;
    assert text[0] == Digits(c)[0];
    DigitsAreClean(text);
    ReadWhole(text);
  }

  lemma ReadWhole(s: string)
    requires AllDigits(s) && s != []
    ensures ReadUnsigned(s) == Some(Fraction(Val(s), 0))
  {
    NoPoint(s);
    assert s[..|s|] == s && s + [] == s;
  }

  lemma ReadPointed(a: string, b: string)
    requires AllDigits(a) && AllDigits(b) && a + b != []
    ensures AllDigits(a + b) && ReadUnsigned(a + "." + b) == Some(Fraction(Val(a + b), |b|))
  {
    var text := a + "." + b;
    PointAfterDigits(a, b);
    assert text[..|a|] == a && text[|a| + 1..] == b;
  }

  lemma CanonicalPointed(a: string, b: string)
    requires AllDigits(a) && AllDigits(b) && a != [] && b != []
    requires (a[0] == '0' ==> |a| == 1) && b[|b| - 1] != '0'
    ensures Canonical(a + "." + b) && Clean(a + "." + b) && HasPoint(a + "." + b)
    ensures (a + "." + b)[|a + "." + b| - 1] == b[|b| - 1]
  {
    var text := a + "." + b;
    PointAfterDigits(a, b);
    assert text[..|a|] == a && text[|a| + 1..] == b && text[|a|] == '.';
    assert text[0] == a[0] && text[|text| - 1] == b[|b| - 1];
    DigitsAreClean(text);
  }

  lemma PaddedDigits(c: nat, places: nat)
    requires c % 10 != 0
    ensures var s := Padded(c, places);
      && AllDigits(s) && Val(s) == c && (s[0] == '0' ==> |s| == places + 1) && s[|s| - 1] != '0'
  {
    var digits := Digits(c);
    ValOfDigits(c);
    ValOfPadded(if places + 1 > |digits| then places + 1 - |digits| else 0, digits);
  }

  /** The digits before and after the point. */
  lemma SplitAtPoint(c: nat, places: nat) returns (a: string, b: string)
    requires c % 10 != 0 && places > 0
    ensures Pointed(c, places) == a + "." + b
    ensures AllDigits(a) && AllDigits(b) && a != [] && |b| == places && Val(a + b) == c
    ensures (a[0] == '0' ==> |a| == 1) && b[|b| - 1] != '0'
  {
    var s := Padded(c, places);
    PaddedDigits(c, places);
    a, b := s[..|s| - places], s[|s| - places..];
    assert a + b == s;
  }

  lemma PointedText(c: nat, places: nat)
    requires c % 10 != 0 && places > 0
    ensures Printed(Pointed(c, places), Fraction(c, places))
  {
    var a, b := SplitAtPoint(c, places);
    ReadPointed(a, b);
    CanonicalPointed(a, b);
    assert IsDigit(b[|b| - 1]);
  }

  /** The fixed-point text of a normalised decimal. */
  lemma FixedText(d: Decimal)
    requires d.coefficient % 10 != 0 || d == Decimal(0, 0)
    ensures Printed(FormatFixed(d), AsFraction(d))
  {
    if d.exponent >= 0 {
      WholeText(d.coefficient, d.exponent);
    } else {
      PointedText(d.coefficient, 0 - d.exponent);
    }
  }

  // ----- the rounded quotient -----

  /** The ratio is mag / scale, with 28 digits before its point. */
  ghost predicate Full(r: Ratio, mag: nat, scale: nat) {
    && r.den > 0 && r.den * FULL <= r.num < r.den * (10 * FULL)
    && (r.exponent >= 0 ==> r.num == mag && r.den == scale * Pow10(r.exponent))
    && (r.exponent < 0 ==> r.num == mag * Pow10(-r.exponent) && r.den == scale)
  }

  lemma {:induction false} ScaleUpFull(mag: nat, scale: nat, den: nat, e: nat)
    requires scale > 0 && den == scale * Pow10(e) && den > 0
    requires e > 0 ==> mag >= den * FULL
    ensures var r := ScaleUp(mag, den, e);
      && r.num == mag && r.exponent >= e && r.den == scale * Pow10(r.exponent) && r.den > 0
      && mag < r.den * (10 * FULL) && (r.exponent > 0 ==> mag >= r.den * FULL)
    decreases mag - den
  {
    if mag >= den * (10 * FULL) {
      assert den * 10 == scale * Pow10(e + 1) by {
        Associate(scale, Pow10(e), 10);
      }
      ScaleUpFull(mag, scale, den * 10, e + 1);
    }
  }

  lemma {:induction false} ScaleDownFull(mag: nat, scale: nat, num: nat, k: nat)
    requires mag > 0 && scale > 0 && num == mag * Pow10(k) && 0 < num < scale * (10 * FULL)
    ensures var r := ScaleDown(num, scale, 0 - k);
      && r.den == scale && r.exponent <= 0 - k && r.num == mag * Pow10(-r.exponent)
      && scale * FULL <= r.num < scale * (10 * FULL)
    decreases scale * FULL - num
  {
    if num < scale * FULL {
      assert num * 10 == mag * Pow10(k + 1) by {
        Associate(mag, Pow10(k), 10);
      }
      ScaleDownFull(mag, scale, num * 10, k + 1);
    }
  }

  lemma ShiftedFull(mag: nat, scale: nat)
    requires mag > 0 && scale > 0
    ensures Full(Shifted(mag, scale), mag, scale)
  {
    ScaleUpFull(mag, scale, scale, 0);
    var up := ScaleUp(mag, scale, 0);
    if up.exponent == 0 {
      assert up.den == scale && up.num == mag == mag * Pow10(0);
      ScaleDownFull(mag, scale, mag, 0);
    }
  }

  /** The quotient is rounded to the nearest whole number, and half way between two to the even one. */
  lemma RoundsToEven(num: nat, den: nat)
    requires den > 0
    ensures var q := RoundHalfEven(num, den);
      2 * Magnitude(q * den - num) <= den && (2 * Magnitude(q * den - num) == den ==> q % 2 == 0)
  {
    var q, r := num / den, num % den;
    assert num == q * den + r;
    assert (q + 1) * den == q * den + den;
  }

  lemma RoundedIsClose(num: nat, den: nat)
    requires den > 0
    ensures var q := RoundHalfEven(num, den);
      && 0 - den <= 2 * (q * den - num) <= den
      && (q * den == num <==> num % den == 0)
      && (num >= den ==> q > 0)
  {
    var q, r := num / den, num % den;
    assert num == q * den + r;
    assert (q + 1) * den == q * den + den;
    if num >= den && q <= 0 {
      TimesMonotone(q, 0, den);
      assert false;
    }
  }

  /** A normalised decimal as a fraction in lowest places. */
  function AsFraction(d: Decimal): (f: Fraction)
    ensures f.num >= 0
  {
    if d.exponent >= 0 then Fraction(d.coefficient * Pow10(d.exponent), 0) else Fraction(d.coefficient, 0 - d.exponent)
  }

  /** How the text's fraction relates to the shifted quotient: by a common factor x. */
  lemma SameFactorOut(mag: nat, scale: nat, r: Ratio, q: nat) returns (x: nat)
    requires Full(r, mag, scale) && q > 0
    ensures var f := AsFraction(Normalize(q, r.exponent));
      && x > 0 && q * r.den == (f.num * scale) * x && r.num == (mag * Pow10(f.places)) * x
      && (r.exponent >= 0 ==> x == 1 && f.places == 0)
      && (r.exponent < 0 ==> x * Pow10(f.places) == Pow10(-r.exponent))
  {
    var e := r.exponent;
    NormalizeExact(q, e);
    var d := Normalize(q, e);
    if e >= 0 {
      x := 1;
      PowAdd(d.exponent - e, e);
      CaseWhole(d.coefficient, Pow10(d.exponent - e), Pow10(e), scale, q, Pow10(d.exponent));
      assert Pow10(0) == 1;
    } else if d.exponent >= 0 {
      x := Pow10(-e);
      PowAdd(d.exponent, -e);
      CaseShifted(d.coefficient, Pow10(d.exponent), Pow10(-e), scale, q, Pow10(d.exponent - e));
      assert Pow10(0) == 1;
    } else {
      x := Pow10(d.exponent - e);
      PowAdd(-d.exponent, d.exponent - e);
      CasePlaces(d.coefficient, x, scale, q, mag, Pow10(-d.exponent), Pow10(-e));
    }
  }

  lemma CaseWhole(c: nat, a: nat, b: nat, scale: nat, q: nat, ab: nat)
    requires q == c * a && ab == a * b
    ensures q * (scale * b) == (c * ab) * scale
  {
    Associate(c, a, b);
    assert (c * ab) * scale == (q * b) * scale;
    assert (q * b) * scale == q * (scale * b);
  }

  lemma CaseShifted(c: nat, a: nat, b: nat, scale: nat, q: nat, ab: nat)
    requires q == c * ab && ab == a * b
    ensures q * scale == ((c * a) * scale) * b
  {
    Associate(c, a, b);
    assert ((c * a) * b) * scale == ((c * a) * scale) * b;
  }

  lemma CasePlaces(c: nat, x: nat, scale: nat, q: nat, mag: nat, p: nat, px: nat)
    requires q == c * x && px == p * x
    ensures q * scale == (c * scale) * x && mag * px == (mag * p) * x
  {
    Associate(mag, p, x);
    assert (c * x) * scale == (c * scale) * x;
  }

  /** Nothing is left over when the quotient is cut to 28 digits. */
  predicate NothingLeft(mag: nat, scale: nat)
    requires scale > 0
  {
    mag == 0 || Shifted(mag, scale).num % Shifted(mag, scale).den == 0
  }

  // ----- what printed text denotes -----

  /** What the fraction and the amount differ by, in units of 10 ^ -places / scale. */
  function Error(f: Fraction, units: int, scale: int): int {
    f.num * scale - units * Pow10(f.places)
  }

  /** The 28th digit of mag / scale stands for 10 ^ e. */
  ghost predicate LastPlace(e: int, mag: nat, scale: nat) {
    if e >= 0 then (scale * Pow10(e)) * FULL <= mag < (scale * Pow10(e)) * (10 * FULL)
    else scale * FULL <= mag * Pow10(-e) < scale * (10 * FULL)
  }

  /** An error is at most half of 10 ^ e; errors count units of 10 ^ -places / scale. */
  ghost predicate HalfUnit(err: nat, places: nat, scale: nat, e: int) {
    if e >= 0 then 2 * err <= (scale * Pow10(e)) * Pow10(places)
    else (2 * err) * Pow10(-e) <= scale * Pow10(places)
  }

  /** The error is at most half a unit of the 28th digit. */
  ghost predicate Rounded(err: nat, places: nat, mag: nat, scale: nat) {
    if mag == 0 then err == 0 else exists e :: LastPlace(e, mag, scale) && HalfUnit(err, places, scale, e)
  }

  /** So it is small against the amount, too. */
  ghost predicate Small(err: nat, places: nat, mag: nat) {
    (2 * FULL) * err <= mag * Pow10(places)
  }

  /** The fixed-point text of a magnitude: its shape, and how far it is from mag / scale. */
  lemma BodyText(mag: nat, scale: nat) returns (body: string, f: Fraction)
    requires scale > 0
    ensures body == FormatFixed(Quotient(mag, scale)) && Printed(body, f) && f.num >= 0
    ensures Rounded(Magnitude(Error(f, mag, scale)), f.places, mag, scale)
    ensures Small(Magnitude(Error(f, mag, scale)), f.places, mag)
    ensures Error(f, mag, scale) == 0 <==> NothingLeft(mag, scale)
  {
    var d := Quotient(mag, scale);
    f := AsFraction(d);
    body := FormatFixed(d);
    if mag > 0 {
      QuotientIsClose(mag, scale);
    }
    FixedText(d);
  }

  lemma QuotientIsClose(mag: nat, scale: nat)
    requires mag > 0 && scale > 0
    ensures var d := Quotient(mag, scale);
            var f := AsFraction(d);
      && d.coefficient % 10 != 0
      && Rounded(Magnitude(Error(f, mag, scale)), f.places, mag, scale)
      && Small(Magnitude(Error(f, mag, scale)), f.places, mag)
      && (Error(f, mag, scale) == 0 <==> NothingLeft(mag, scale))
  {
    var r := Shifted(mag, scale);
    ShiftedFull(mag, scale);
    var q := RoundHalfEven(r.num, r.den);
    AtLeastOne(r.den, r.num);
    RoundedIsClose(r.num, r.den);
    NormalizeExact(q, r.exponent);
    var f := AsFraction(Normalize(q, r.exponent));
    var x := SameFactorOut(mag, scale, r, q);
    DivideOut(q * r.den, r.num, r.den, f.num * scale, mag * Pow10(f.places), x);
    HalfUnitOut(r, mag, scale, Magnitude(Error(f, mag, scale)), f.places, x);
    assert LastPlace(r.exponent, mag, scale);
  }

  lemma HalfUnitOut(r: Ratio, mag: nat, scale: nat, err: nat, places: nat, x: nat)
    requires Full(r, mag, scale) && x > 0 && (2 * err) * x <= r.den
    requires r.exponent >= 0 ==> x == 1 && places == 0
    requires r.exponent < 0 ==> x * Pow10(places) == Pow10(-r.exponent)
    ensures HalfUnit(err, places, scale, r.exponent)
  {
    if r.exponent >= 0 {
      assert Pow10(0) == 1;
    } else {
      TimesMonotone((2 * err) * x, scale, Pow10(places));
      Associate(2 * err, x, Pow10(places));
    }
  }

  lemma AtLeastOne(den: nat, num: nat)
    requires den * FULL <= num
    ensures den <= num
  {
  }

  lemma DivideOut(rounded: int, num: int, den: int, a: int, b: int, x: int)
    requires x > 0 && rounded == a * x && num == b * x
    requires -den <= 2 * (rounded - num) <= den && den * FULL <= num
    ensures (2 * Magnitude(a - b)) * x <= den
    ensures (2 * FULL) * Magnitude(a - b) <= b
    ensures a == b <==> rounded == num
  {
    assert rounded - num == (a - b) * x;
    assert (2 * Magnitude(a - b)) * x == 2 * Magnitude(rounded - num) by {
      assert Magnitude(a - b) * x == Magnitude(rounded - num);
    }
    var y := (2 * FULL) * (a - b);
    assert y * x == (2 * FULL) * (rounded - num) by {
      Associate(2 * FULL, a - b, x);
    }
    Shrink(y, b, x);
    if a != b && rounded == num {
      CancelFactor(a, b, x);
    }
  }

  lemma Shrink(y: int, b: int, x: int)
    requires x > 0 && -(b * x) <= y * x <= b * x
    ensures -b <= y <= b
  {
    if y > b {
      TimesMonotone(b + 1, y, x);
    }
    if y < -b {
      TimesMonotone(y, -b - 1, x);
    }
  }

  lemma NothingToStrip(body: string, f: Fraction)
    requires Printed(body, f)
    ensures StripZeros(body) == body
  {
  }

  /** Reading a clean body, with or without a minus sign. */
  lemma ReadSigned(body: string, f: Fraction)
    requires Printed(body, f)
    ensures ReadDecimal(body) == Some(f)
    ensures ("-" + body)[1..] == body && ReadDecimal("-" + body) == Some(f.(num := 0 - f.num))
  {
  }

  /** The decimal fits the context: mag / scale == c * 10 ^ (j - k) with at most 28 digits in c. */
  ghost predicate Fits(mag: nat, scale: nat) {
    exists c: nat, j: nat, k: nat :: c < 10_000_000_000_000_000_000_000_000_000 && Spells(c, j, k, mag, scale)
  }

  ghost predicate Spells(c: nat, j: nat, k: nat, mag: nat, scale: nat) {
    (c * Pow10(j)) * scale == mag * Pow10(k)
  }

  /** The whole part of the shifted quotient is all of it exactly when the quotient fits. */
  lemma FitsIff(mag: nat, scale: nat)
    requires scale > 0
    ensures Fits(mag, scale) <==> NothingLeft(mag, scale)
  {
    if mag == 0 {
      assert Spells(0, 0, 0, mag, scale);
    } else {
      var r := Shifted(mag, scale);
      ShiftedFull(mag, scale);
      if r.num % r.den == 0 {
        WholeSpells(r, mag, scale);
      }
      if c: nat, j: nat, k: nat :| c < 10 * FULL && Spells(c, j, k, mag, scale) {
        SpelledDivides(r, mag, scale, c, j, k);
      }
    }
  }

  lemma WholeSpells(r: Ratio, mag: nat, scale: nat)
    requires Full(r, mag, scale) && scale > 0 && r.num % r.den == 0
    ensures Fits(mag, scale)
  {
    var c := r.num / r.den;
    assert r.num == c * r.den;
    LessByFactor(c, 10 * FULL, r.den);
    assert Pow10(0) == 1;
    if r.exponent >= 0 {
      SpellsUp(c, r.exponent, mag, scale, r.den);
      assert Spells(c, r.exponent, 0, mag, scale);
    } else {
      assert Spells(c, 0, -r.exponent, mag, scale);
    }
  }

  lemma SpellsUp(c: nat, j: nat, mag: nat, scale: nat, den: nat)
    requires den == scale * Pow10(j) && mag == c * den
    ensures Spells(c, j, 0, mag, scale)
  {
    SwapFactors(c, Pow10(j), scale);
    assert Pow10(0) == 1;
  }

  lemma SwapFactors(a: int, b: int, c: int)
    ensures (a * b) * c == a * (c * b)
  {
  }

  lemma LessByFactor(a: int, b: int, x: nat)
    requires x > 0 && a * x < x * b
    ensures a < b
  {
    if a >= b {
      TimesMonotone(b, a, x);
    }
  }

  /** The same power of ten on both sides of the comparison of a spelling with the ratio. */
  lemma SpelledDivides(r: Ratio, mag: nat, scale: nat, c: nat, j: nat, k: nat)
    requires Full(r, mag, scale) && mag > 0 && scale > 0 && c < 10 * FULL && Spells(c, j, k, mag, scale)
    ensures r.num % r.den == 0
  {
    var a, b := if r.exponent >= 0 then r.exponent else 0, if r.exponent >= 0 then 0 else -r.exponent;
    CrossMultiply(r, mag, scale, a, b);
    Eliminate(r.num, r.den, mag, scale, c, Pow10(a), Pow10(b), Pow10(j), Pow10(k));
    PowAdd(a, k);
    PowAdd(b, j);
    if b + j >= a + k {
      var t := b + j - a - k;
      PowAdd(t, a + k);
      Associate(r.den * c, Pow10(t), Pow10(a + k));
      CancelFactor(r.num, (r.den * c) * Pow10(t), Pow10(a + k));
      MultipleOf(r.num, r.den, c, Pow10(t));
    } else {
      var t := a + k - b - j;
      PowAdd(t, b + j);
      Associate(r.num, Pow10(t), Pow10(b + j));
      CancelFactor(r.num * Pow10(t), r.den * c, Pow10(b + j));
      TooManyDigits(r.num, r.den, c, Pow10(t), Pow10(t - 1));
      assert false;
    }
  }

  lemma CrossMultiply(r: Ratio, mag: nat, scale: nat, a: nat, b: nat)
    requires Full(r, mag, scale)
    requires if r.exponent >= 0 then a == r.exponent && b == 0 else a == 0 && b == -r.exponent
    ensures (r.num * scale) * Pow10(a) == (mag * r.den) * Pow10(b)
  {
    if r.exponent >= 0 {
      assert Pow10(0) == 1;
      Associate(mag, scale, Pow10(a));
    } else {
      assert Pow10(0) == 1;
      assert (mag * Pow10(b)) * scale == (mag * scale) * Pow10(b);
    }
  }

  /** num / den and c * pj / pk are the same multiple of mag / scale. */
  lemma Eliminate(num: nat, den: nat, mag: nat, scale: nat, c: nat, pa: nat, pb: nat, pj: nat, pk: nat)
    requires mag > 0 && scale > 0 && (num * scale) * pa == (mag * den) * pb && (c * pj) * scale == mag * pk
    ensures num * (pa * pk) == (den * c) * (pb * pj)
  {
    var left, right := num * (pa * pk), (den * c) * (pb * pj);
    GatherLeft(num, scale, pa, pk);
    GatherMiddle(mag, den, pb, pk);
    GatherRight(den, pb, c, pj, scale);
    CancelFactor(left, right, scale);
  }

  lemma GatherLeft(num: int, scale: int, pa: int, pk: int)
    ensures (num * (pa * pk)) * scale == ((num * scale) * pa) * pk
  {
    Associate(num * scale, pa, pk);
    assert (num * (pa * pk)) * scale == (num * scale) * (pa * pk);
  }

  lemma GatherMiddle(mag: int, den: int, pb: int, pk: int)
    ensures ((mag * den) * pb) * pk == (den * pb) * (mag * pk)
  {
    Associate(mag, den, pb);
    assert (mag * (den * pb)) * pk == (den * pb) * (mag * pk);
  }

  lemma GatherRight(den: int, pb: int, c: int, pj: int, scale: int)
    ensures (den * pb) * ((c * pj) * scale) == ((den * c) * (pb * pj)) * scale
  {
    Associate(den * pb, c * pj, scale);
    assert (den * pb) * (c * pj) == (den * c) * (pb * pj);
  }

  lemma MultipleOf(num: nat, den: nat, c: nat, p: nat)
    requires den > 0 && num == (den * c) * p
    ensures num % den == 0
  {
    assert num == (c * p) * den;
    WholeQuotient(c * p, den);
  }

  lemma TooManyDigits(num: nat, den: nat, c: nat, p: nat, p': nat)
    requires den > 0 && num * p == den * c && p == 10 * p' && p' >= 1 && den * FULL <= num
    ensures c >= 10 * FULL
  {
    assert num * p == (num * 10) * p';
    assert num > 0;
    TimesMonotone(1, p', num * 10);
    if c < 10 * FULL {
      LessThanTen(c, den);
    }
  }

  lemma LessThanTen(c: nat, den: nat)
    requires den > 0 && c < 10 * FULL
    ensures den * c < den * (10 * FULL)
  {
    TimesMonotone(c + 1, 10 * FULL, den);
  }

  // ----- the laws -----

  ghost predicate Near(err: nat, places: nat, mag: nat, scale: nat) {
    Rounded(err, places, mag, scale) && Small(err, places, mag)
  }

  lemma SignedText(units: int, scale: int) returns (body: string, f: Fraction)
    requires scale >= 1
    ensures FormatSigned(units, scale) == Some(Sign(units, body)) && Printed(body, f) && f.num >= 0
    ensures Near(Magnitude(Error(f, Magnitude(units), scale)), f.places, Magnitude(units), scale)
    ensures Error(f, Magnitude(units), scale) == 0 <==> Fits(Magnitude(units), scale)
  {
    body, f := BodyText(Magnitude(units), scale);
    NothingToStrip(body, f);
    FitsIff(Magnitude(units), scale);
  }

  /** The text is a decimal without redundant zeros, with a minus sign exactly for negative
      amounts, that differs from units / scale by at most half a unit of its 28th digit. */
  ghost predicate PrintsClose(text: string, units: int, scale: nat) {
    var read := ReadDecimal(text);
    && text != [] && (text[0] == '-' <==> units < 0)
    && Canonical(if units < 0 then text[1..] else text) && read.Some?
    && Near(Magnitude(Error(read.value, units, scale)), read.value.places, Magnitude(units), scale)
  }

  /** The text denotes exactly units / scale. */
  ghost predicate PrintsExactly(text: string, units: int, scale: int) {
    ReadDecimal(text).Some? && Error(ReadDecimal(text).value, units, scale) == 0
  }

  /** For every amount and every scale the text is close, and exact if and only if 28 digits are
      enough for the quotient. */
  lemma PrintIsExactIff(units: int, scale: int)
    requires scale >= 1
    ensures FormatSigned(units, scale).Some? && PrintsClose(FormatSigned(units, scale).value, units, scale)
    ensures PrintsExactly(FormatSigned(units, scale).value, units, scale) <==> Fits(Magnitude(units), scale)
  {
    var body, f := SignedText(units, scale);
    var g := if units < 0 then f.(num := 0 - f.num) else f;
    SameError(f, g, units, scale);
    SignedReads(Sign(units, body), body, f, units);
    BodyPrints(Sign(units, body), g, units, scale);
  }

  lemma BodyPrints(text: string, g: Fraction, units: int, scale: nat)
    requires ReadDecimal(text) == Some(g) && text != [] && (text[0] == '-' <==> units < 0)
    requires Canonical(if units < 0 then text[1..] else text)
    requires Near(Magnitude(Error(g, units, scale)), g.places, Magnitude(units), scale)
    ensures PrintsClose(text, units, scale)
    ensures PrintsExactly(text, units, scale) <==> Magnitude(Error(g, units, scale)) == 0
  {
  }

  lemma SignedReads(text: string, body: string, f: Fraction, units: int)
    requires Printed(body, f) && text == Sign(units, body)
    ensures text != [] && (text[0] == '-' <==> units < 0)
    ensures Canonical(if units < 0 then text[1..] else text)
    ensures ReadDecimal(text) == Some(if units < 0 then f.(num := 0 - f.num) else f)
  {
    ReadSigned(body, f);
  }

  lemma SameError(f: Fraction, g: Fraction, units: int, scale: int)
    requires g == if units < 0 then f.(num := 0 - f.num) else f
    ensures Magnitude(Error(g, units, scale)) == Magnitude(Error(f, Magnitude(units), scale))
  {
    assert (0 - f.num) * scale == 0 - f.num * scale;
    assert (0 - units) * Pow10(f.places) == 0 - units * Pow10(f.places);
  }

  /** With a scale of 10 ^ k every amount below 10 ^ 28, so every BIGINT, prints exactly. */
  lemma PrintIsExact(units: int, k: nat)
    requires Magnitude(units) < 10_000_000_000_000_000_000_000_000_000
    ensures FormatSigned(units, Pow10(k)).Some?
    ensures PrintsExactly(FormatSigned(units, Pow10(k)).value, units, Pow10(k))
  {
    PrintIsExactIff(units, Pow10(k));
    SpellsItself(Magnitude(units), k);
  }

  lemma SpellsItself(mag: nat, k: nat)
    requires mag < 10 * FULL
    ensures Fits(mag, Pow10(k))
  {
    assert Pow10(0) == 1;
    assert Spells(mag, 0, k, mag, Pow10(k));
  }

  /** Different amounts below 10 ^ 27, so different BIGINTs, print differently for every scale,
      even where the text is rounded. */
  lemma PrintIsInjective(a: int, b: int, scale: int)
    requires scale >= 1
    requires Magnitude(a) < 1_000_000_000_000_000_000_000_000_000
    requires Magnitude(b) < 1_000_000_000_000_000_000_000_000_000
    ensures FormatSigned(a, scale) == FormatSigned(b, scale) ==> a == b
  {
    if FormatSigned(a, scale) == FormatSigned(b, scale) {
      PrintIsExactIff(a, scale);
      PrintIsExactIff(b, scale);
      SameText(FormatSigned(a, scale).value, a, b, scale);
    }
  }

  lemma SameText(text: string, a: int, b: int, scale: nat)
    requires PrintsClose(text, a, scale) && PrintsClose(text, b, scale)
    requires Magnitude(a) < FULL && Magnitude(b) < FULL
    ensures a == b
  {
    var f := ReadDecimal(text).value;
    TooClose(a, b, f.num * scale, Pow10(f.places));
  }

  lemma TooClose(a: int, b: int, read: int, p: nat)
    requires p > 0 && Magnitude(a) < FULL && Magnitude(b) < FULL
    requires (2 * FULL) * Magnitude(read - a * p) <= Magnitude(a) * p
    requires (2 * FULL) * Magnitude(read - b * p) <= Magnitude(b) * p
    ensures a == b
  {
    MagnitudeTimes(a, b, p);
    Triangle(read - a * p, read - b * p, Magnitude(a) * p, Magnitude(b) * p);
    NoRoom(Magnitude(a - b), Magnitude(a), Magnitude(b), p,
      Magnitude(b * p - a * p), Magnitude(a) * p, Magnitude(b) * p);
  }

  lemma NoRoom(gap: nat, a: nat, b: nat, p: nat, gapP: int, aP: int, bP: int)
    requires p > 0 && gapP == gap * p && aP == a * p && bP == b * p && a < FULL && b < FULL
    requires (2 * FULL) * gapP <= aP + bP
    ensures gap == 0
  {
    assert (a + b) * p == a * p + b * p;
    Associate(2 * FULL, gap, p);
    LessOrEqualByFactor((2 * FULL) * gap, a + b, p);
  }

  lemma MagnitudeTimes(a: int, b: int, p: nat)
    ensures Magnitude(b * p - a * p) == Magnitude(a - b) * p
  {
    assert b * p - a * p == (b - a) * p;
  }

  lemma Triangle(x: int, y: int, a: int, b: int)
    requires (2 * FULL) * Magnitude(x) <= a && (2 * FULL) * Magnitude(y) <= b
    ensures (2 * FULL) * Magnitude(x - y) <= a + b
  {
  }

  lemma LessOrEqualByFactor(a: int, b: int, x: int)
    requires x > 0 && a * x <= b * x
    ensures a <= b
  {
    if a > b {
      TimesMonotone(b + 1, a, x);
    }
  }

  /** Printing the units and parsing the text gives the units back. */
  predicate RoundTrips(units: int, scale: int) {
    && FormatSigned(units, scale).Some?
    && ParseWholeTokens(FormatSigned(units, scale).value, scale) == Ok(units)
  }

  /** Printing a whole number of tokens and parsing the text gives back its units, for every scale,
      exactly when the number of tokens has at most 28 significant digits. */
  lemma WholeTokensRoundTripIff(tokens: int, scale: int, units: int)
    requires TokensWholeToUnits(tokens, scale) == Some(units)
    ensures RoundTrips(units, scale) <==> Fits(Magnitude(units), scale)
  {
    TimesMonotone(0, tokens, scale);
    var body, f := SignedText(units, scale);
    ReadSigned(body, f);
    WholeBodyIff(body, f, tokens, scale, units);
  }

  lemma WholeBodyIff(body: string, f: Fraction, tokens: nat, scale: int, units: nat)
    requires scale >= 1 && units == tokens * scale && f.num >= 0
    requires Clean(body) && ReadDecimal(body) == Some(f)
    ensures ParseWholeTokens(body, scale) == Ok(units) <==> Error(f, units, scale) == 0
  {
    CleanIsStripped(body);
    if Error(f, units, scale) == 0 {
      WholeBody(body, f, tokens, scale, units);
    } else if ParseWholeTokens(body, scale) == Ok(units) {
      ParsedExactly(f.num, Pow10(f.places), scale, units);
      assert false;
    }
  }

  lemma WholeBody(body: string, f: Fraction, tokens: nat, scale: int, units: int)
    requires scale >= 1 && units == tokens * scale && Error(f, units, scale) == 0 && f.num >= 0
    requires Clean(body) && Stripped(body) == body && ReadDecimal(body) == Some(f)
    ensures ParseWholeTokens(body, scale) == Ok(units)
  {
    ReadsWhole(f.num, tokens, scale, Pow10(f.places));
    WholeQuotient(tokens, Pow10(f.places));
    ParsesTo(body, f, tokens, scale);
  }

  /** In particular for every number of tokens below 10 ^ 28, so for every BIGINT of units. */
  lemma WholeTokensRoundTrip(tokens: int, scale: int, units: int)
    requires TokensWholeToUnits(tokens, scale) == Some(units) && tokens < 10_000_000_000_000_000_000_000_000_000
    ensures RoundTrips(units, scale)
  {
    TimesMonotone(0, tokens, scale);
    FitsWhole(tokens, scale);
    WholeTokensRoundTripIff(tokens, scale, units);
  }

  lemma FitsWhole(tokens: nat, scale: nat)
    requires tokens < 10 * FULL
    ensures Fits(tokens * scale, scale)
  {
    assert Pow10(0) == 1;
    assert Spells(tokens, 0, 0, tokens * scale, scale);
  }

  lemma ParsedExactly(num: nat, p: nat, scale: nat, units: int)
    requires p > 0 && num % p == 0 && (num / p) * scale == units
    ensures num * scale == units * p
  {
    var n := num / p;
    assert num == n * p;
    assert (n * p) * scale == (n * scale) * p;
  }

  lemma ParsesTo(body: string, f: Fraction, tokens: nat, scale: int)
    requires scale >= 1 && Clean(body) && Stripped(body) == body && ReadDecimal(body) == Some(f) && f.num >= 0
    requires f.num % Pow10(f.places) == 0 && f.num / Pow10(f.places) == tokens
    ensures ParseWholeTokens(body, scale) == Ok(tokens * scale)
  {
  }

  lemma CleanIsStripped(s: string)
    requires Clean(s)
    ensures Stripped(s) == s
  {
  }

  lemma ReadsWhole(num: int, tokens: nat, p: int, q: int)
    requires p > 0 && q > 0 && num * p == (tokens * p) * q
    ensures num == tokens * q
  {
    assert (tokens * p) * q == (tokens * q) * p;
    CancelFactor(num, tokens * q, p);
  }

  lemma Associate(a: int, b: int, c: int)
    ensures (a * b) * c == a * (b * c)
  {
  }

  lemma CancelFactor(a: int, b: int, p: int)
    requires p > 0 && a * p == b * p
    ensures a == b
  {
    assert (a - b) * p == 0;
  }
}
