/** What parse_whole_tokens_to_units of src/casino_bot/services/token_amounts.py accepts, by the
    parts of the text: white space, a sign, digits, and a point with more digits. */
module TokenParsing {
  import opened Common
  import opened TokenAmounts

  predicate AllSpaces(s: string) {
    forall i :: 0 <= i < |s| ==> IsSpace(s[i])
  }

  datatype Sign = NoSign | Minus | Plus

  /** A decimal number in plain notation; without a point there is no fractional part. */
  datatype Plain = Plain(sign: Sign, whole: string, pointed: bool, part: string)
  {
    predicate Valid() {
      AllDigits(whole) && AllDigits(part) && whole + part != [] && (!pointed ==> part == [])
    }

    function Unsigned(): string {
      if pointed then whole + "." + part else whole
    }

    function Text(): string {
      Signed(sign, Unsigned())
    }
  }

  // ----- white space -----

  lemma NotSpaces(c: char)
    requires IsDigit(c) || c == '.' || c == '-' || c == '+'
    ensures !IsSpace(c)
  {
  }

  lemma {:induction false} FrontStripped(pre: string, s: string)
    requires AllSpaces(pre) && s != [] && !IsSpace(s[0])
    ensures LStripped(pre + s) == s
  {
    if pre == [] {
      assert pre + s == s;
    } else {
      assert (pre + s)[1..] == pre[1..] + s;
      FrontStripped(pre[1..], s);
    }
  }

  lemma {:induction false} BothStripped(pre: string, s: string, post: string)
    requires AllSpaces(pre) && AllSpaces(post) && s != [] && !IsSpace(s[0]) && !IsSpace(s[|s| - 1])
    ensures Stripped(pre + s + post) == s
  {
    var text := pre + s + post;
    if post == [] {
      assert text == pre + s && text[|text| - 1] == s[|s| - 1];
      FrontStripped(pre, s);
    } else {
      assert text[..|text| - 1] == pre + s + post[..|post| - 1] && text[|text| - 1] == post[|post| - 1];
      BothStripped(pre, s, post[..|post| - 1]);
    }
  }

  lemma {:induction false} FrontOfSpaces(s: string)
    requires AllSpaces(s)
    ensures LStripped(s) == []
  {
    if s != [] {
      FrontOfSpaces(s[1..]);
    }
  }

  lemma {:induction false} OnlySpaces(s: string)
    requires AllSpaces(s)
    ensures Stripped(s) == []
  {
    if s == [] {
      FrontOfSpaces(s);
    } else {
      OnlySpaces(s[..|s| - 1]);
    }
  }

  // ----- digits -----

  /** The digits after the point count less than one. */
  lemma {:induction false} ValBelow(s: string)
    requires AllDigits(s)
    ensures Val(s) < Pow10(|s|)
  {
    if s != [] {
      ValBelow(s[..|s| - 1]);
    }
  }

  lemma {:induction false} ValJoin(a: string, b: string)
    requires AllDigits(a) && AllDigits(b)
    ensures AllDigits(a + b) && Val(a + b) == Val(a) * Pow10(|b|) + Val(b)
  {
    if b == [] {
      assert a + b == a;
    } else {
      var n := |b| - 1;
      ValJoin(a, b[..n]);
      assert (a + b)[..|a + b| - 1] == a + b[..n] && (a + b)[|a + b| - 1] == b[n];
      JoinStep(Val(a), Pow10(n), Val(b[..n]), b[n] as int - '0' as int);
    }
  }

  lemma JoinStep(a: int, p: int, b: int, d: int)
    ensures 10 * (a * p + b) + d == a * (10 * p) + (10 * b + d)
  {
    TenTimes(a, p);
  }

  /** A number without its sign. */
  ghost predicate Unsigned(u: string, num: nat, places: nat) {
    && u != [] && u[0] != '-' && u[0] != '+' && !IsSpace(u[0]) && !IsSpace(u[|u| - 1])
    && ReadUnsigned(u) == Some(Fraction(num, places))
  }

  lemma UnsignedReads(p: Plain) returns (num: nat)
    requires p.Valid()
    ensures AllDigits(p.whole + p.part) && num == Val(p.whole + p.part)
    ensures Unsigned(p.Unsigned(), num, |p.part|)
  {
    JoinDigits(p.whole, p.part);
    num := Val(p.whole + p.part);
    if p.pointed {
      ReadPointed(p.whole, p.part);
      Ends(p.whole + "." + p.part, if p.whole == [] then '.' else p.whole[0],
           if p.part == [] then '.' else p.part[|p.part| - 1]);
    } else {
      ReadWhole(p.whole);
      assert p.whole + p.part == p.whole;
      Ends(p.whole, p.whole[0], p.whole[|p.whole| - 1]);
    }
  }

  lemma JoinDigits(a: string, b: string)
    requires AllDigits(a) && AllDigits(b)
    ensures AllDigits(a + b)
  {
  }

  lemma Ends(u: string, first: char, last: char)
    requires u != [] && u[0] == first && u[|u| - 1] == last
    requires (IsDigit(first) || first == '.') && (IsDigit(last) || last == '.')
    ensures u[0] != '-' && u[0] != '+' && !IsSpace(u[0]) && !IsSpace(u[|u| - 1])
  {
    NotSpaces(first);
    NotSpaces(last);
  }

  // ----- the sign -----

  function Signed(sign: Sign, u: string): string {
    match sign
    case NoSign => u
    case Minus => ['-'] + u
    case Plus => ['+'] + u
  }

  lemma SignReads(sign: Sign, u: string, num: nat, places: nat)
    requires Unsigned(u, num, places)
    ensures ReadDecimal(Signed(sign, u)) == Some(Fraction(if sign == Minus then 0 - num else num, places))
  {
    var text := Signed(sign, u);
    if sign != NoSign {
      assert text[0] == (if sign == Minus then '-' else '+') && text[1..] == u;
    }
  }

  lemma SignEnds(sign: Sign, u: string, num: nat, places: nat)
    requires Unsigned(u, num, places)
    ensures var text := Signed(sign, u);
      text != [] && !IsSpace(text[0]) && !IsSpace(text[|text| - 1])
  {
    NotSpaces('-');
    NotSpaces('+');
  }

  // ----- what the parser answers -----

  lemma WholeNumber(whole: nat, p: nat)
    requires p > 0
    ensures (whole * p) % p == 0 && (whole * p) / p == whole && (0 - whole * p) % p == 0
    ensures whole > 0 ==> whole * p > 0
  {
    WholeQuotient(whole, p);
    WholeQuotient(0 - whole, p);
    assert (0 - whole) * p == 0 - whole * p;
    TimesMonotone(1, whole, p);
  }

  lemma BrokenNumber(whole: nat, part: nat, p: nat)
    requires 0 < part < p
    ensures (whole * p + part) % p != 0 && (0 - (whole * p + part)) % p != 0
  {
    Between(whole * p + part, whole, p, part);
    assert 0 - (whole * p + part) == (0 - whole - 1) * p + (p - part);
    Between(0 - (whole * p + part), 0 - whole - 1, p, p - part);
  }

  /** The parser's decision about a number num / p. */
  function Decision(num: int, p: nat, scale: int): Result
    requires p > 0
  {
    if num % p != 0 then NotWhole else if num < 0 then Negative
    else if scale < 1 then BadScale else Ok((num / p) * scale)
  }

  lemma DecisionMeans(num: int, whole: nat, part: nat, p: nat, negative: bool, scale: int)
    requires part < p && num == if negative then 0 - (whole * p + part) else whole * p + part
    ensures Decision(num, p, scale) ==
      if part != 0 then NotWhole else if negative && whole > 0 then Negative
      else if scale < 1 then BadScale else Ok(whole * scale)
  {
    if part == 0 {
      WholeNumber(whole, p);
    } else {
      BrokenNumber(whole, part, p);
    }
  }

  lemma Between(n: int, q: int, p: nat, r: nat)
    requires n == q * p + r && 0 < r < p
    ensures n % p != 0
  {
    if n % p == 0 {
      var k := n / p;
      assert n == k * p;
      assert (k - q) * p == r;
      TimesMonotone(1, k - q, p);
      TimesMonotone(k - q, 0, p);
    }
  }

  lemma SignedParses(pre: string, sign: Sign, u: string, post: string, num: nat, places: nat, scale: int)
    requires AllSpaces(pre) && AllSpaces(post) && Unsigned(u, num, places)
    ensures ParseWholeTokens(pre + Signed(sign, u) + post, scale)
         == Decision(if sign == Minus then 0 - num else num, Pow10(places), scale)
  {
    SignReads(sign, u, num, places);
    SignEnds(sign, u, num, places);
    BothStripped(pre, Signed(sign, u), post);
    Decides(pre + Signed(sign, u) + post, Signed(sign, u), if sign == Minus then 0 - num else num, places, scale);
  }

  /** A plain number between white space is refused when it has a fraction, when it is negative, or
      when the scale is not positive, in this order; otherwise it parses to its tokens times the
      scale. Minus zero is zero. */
  lemma ParseMeans(pre: string, p: Plain, post: string, scale: int)
    requires AllSpaces(pre) && AllSpaces(post) && p.Valid()
    ensures ParseWholeTokens(pre + p.Text() + post, scale) ==
      if Val(p.part) != 0 then NotWhole
      else if p.sign == Minus && Val(p.whole) > 0 then Negative
      else if scale < 1 then BadScale
      else Ok(Val(p.whole) * scale)
  {
    var num := UnsignedReads(p);
    SignedParses(pre, p.sign, p.Unsigned(), post, num, |p.part|, scale);
    DigitsDecide(p.whole, p.part, num, p.sign == Minus, scale);
  }

  lemma DigitsDecide(a: string, b: string, num: nat, negative: bool, scale: int)
    requires AllDigits(a) && AllDigits(b) && AllDigits(a + b) && num == Val(a + b)
    ensures Decision(if negative then 0 - num else num, Pow10(|b|), scale) ==
      if Val(b) != 0 then NotWhole else if negative && Val(a) > 0 then Negative
      else if scale < 1 then BadScale else Ok(Val(a) * scale)
  {
    ValJoin(a, b);
    ValBelow(b);
    DecisionMeans(if negative then 0 - num else num, Val(a), Val(b), Pow10(|b|), negative, scale);
  }

  lemma Decides(raw: string, text: string, num: int, places: nat, scale: int)
    requires Stripped(raw) == text && text != [] && ReadDecimal(text) == Some(Fraction(num, places))
    ensures ParseWholeTokens(raw, scale) == Decision(num, Pow10(places), scale)
  {
  }

  /** Text of nothing but white space is refused as empty. */
  lemma BlankIsEmpty(raw: string, scale: int)
    requires AllSpaces(raw)
    ensures ParseWholeTokens(raw, scale) == Empty
  {
    OnlySpaces(raw);
  }

  // ----- what is not a number -----

  /** The parts of a number, from its sign and the rest. */
  function PartsOf(sign: Sign, u: string): Plain {
    var i := PointAt(u);
    Plain(sign, u[..i], i < |u|, if i < |u| then u[i + 1..] else [])
  }

  lemma UnsignedParts(sign: Sign, u: string)
    requires ReadUnsigned(u).Some?
    ensures PartsOf(sign, u).Valid() && PartsOf(sign, u).Unsigned() == u
  {
    var i := PointAt(u);
    assert i < |u| ==> u == u[..i] + "." + u[i + 1..];
  }

  /** The reader accepts only plain numbers. */
  lemma ReadsPlain(s: string) returns (p: Plain)
    requires ReadDecimal(s).Some?
    ensures p.Valid() && p.Text() == s
  {
    if s != [] && (s[0] == '-' || s[0] == '+') {
      var sign := if s[0] == '-' then Minus else Plus;
      UnsignedParts(sign, s[1..]);
      p := PartsOf(sign, s[1..]);
      assert [s[0]] + s[1..] == s;
    } else {
      UnsignedParts(NoSign, s);
      p := PartsOf(NoSign, s);
    }
  }

  /** The white space that stripping removes in front and behind. */
  lemma {:induction false} FrontSplit(s: string) returns (pre: string)
    ensures AllSpaces(pre) && s == pre + LStripped(s) && (LStripped(s) == [] ==> pre == s)
  {
    pre := [];
    if s != [] && IsSpace(s[0]) {
      pre := FrontSplit(s[1..]);
      pre := [s[0]] + pre;
    }
  }

  lemma {:induction false} StripSplit(s: string) returns (pre: string, post: string)
    ensures AllSpaces(pre) && AllSpaces(post) && s == pre + Stripped(s) + post
    ensures Stripped(s) == [] ==> AllSpaces(s)
  {
    if s != [] && IsSpace(s[|s| - 1]) {
      var n := |s| - 1;
      pre, post := StripSplit(s[..n]);
      post := post + [s[n]];
    } else {
      pre := FrontSplit(s);
      post := [];
    }
  }

  /** The text is a plain number between white space. */
  ghost predicate IsNumber(raw: string) {
    exists pre, p: Plain, post ::
      AllSpaces(pre) && AllSpaces(post) && p.Valid() && raw == pre + p.Text() + post
  }

  /** Every other text is refused as invalid. */
  lemma InvalidIff(raw: string, scale: int)
    ensures ParseWholeTokens(raw, scale) == Invalid <==> !AllSpaces(raw) && !IsNumber(raw)
  {
    var pre, post := StripSplit(raw);
    if ReadDecimal(Stripped(raw)).Some? {
      var p := ReadsPlain(Stripped(raw));
      assert raw == pre + p.Text() + post;
    }
    if AllSpaces(raw) {
      BlankIsEmpty(raw, scale);
    } else if IsNumber(raw) {
      var before, p: Plain, after :|
        AllSpaces(before) && AllSpaces(after) && p.Valid() && raw == before + p.Text() + after;
      ParseMeans(before, p, after, scale);
    }
  }
}
