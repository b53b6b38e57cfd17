/**
 * Numeric tokens `\d+(?:,\d+)*(?:\.\d+)?` and the amounts built from them.
 * Amounts are exact decimals; `round(amount, 2)` becomes a whole number of
 * hundredths (cents) chosen to the nearest, ties to even.
 */
module Numbers {
  import opened Wrappers
  import opened Text

  /** An exact decimal number: `units / 10^scale`. "1,234.50" is Decimal(123450, 2). */
  datatype Decimal = Decimal(units: nat, scale: nat)

  /** The amount the parser starts from and keeps when nothing better is found: 0.0. */
  const Zero: Decimal := Decimal(0, 0)

  function Pow10(n: nat): (r: nat)
    ensures r >= 1
  {
    if n == 0 then 1 else 10 * Pow10(n - 1)
  }

  lemma {:induction false} Pow10Add(a: nat, b: nat)
    ensures Pow10(a + b) == Pow10(a) * Pow10(b)
    decreases a
  {
    if a > 0 {
      Pow10Add(a - 1, b);
    }
  }

  /** Greedy `(?:,\d+)*` starting at `i`, which follows a digit run. */
  function CommaGroupsEnd(s: string, i: nat): (e: nat)
    requires i <= |s|
    requires i == |s| || !IsDigit(s[i])
    ensures i <= e <= |s|
    ensures e == |s| || !IsDigit(s[e])
    ensures forall k :: i <= k < e ==> IsDigit(s[k]) || s[k] == ','
    ensures forall k :: i <= k < e && s[k] == ',' ==> k + 1 < e && IsDigit(s[k + 1])
    ensures !(e + 1 < |s| && s[e] == ',' && IsDigit(s[e + 1]))
    decreases |s| - i
  {
    if i + 1 < |s| && s[i] == ',' && IsDigit(s[i + 1]) then
      CommaGroupsEnd(s, DigitEnd(s, i + 1))
    else i
  }

  /** Greedy `(?:\.\d+)?` starting at `i`. */
  function FractionEnd(s: string, i: nat): (e: nat)
    requires i <= |s|
    requires i == |s| || !IsDigit(s[i])
    ensures i <= e <= |s|
    ensures e == |s| || !IsDigit(s[e])
    ensures e == i || (s[i] == '.' && i + 1 < e && forall k :: i + 1 <= k < e ==> IsDigit(s[k]))
    ensures e == i ==> !(i + 1 < |s| && s[i] == '.' && IsDigit(s[i + 1]))
  {
    if i + 1 < |s| && s[i] == '.' && IsDigit(s[i + 1]) then DigitEnd(s, i + 1) else i
  }

  /** `s.replace(",", "")`. */
  function RemoveCommas(s: string): (r: string)
    ensures forall k :: 0 <= k < |r| ==> r[k] != ','
  {
    if s == [] then []
    else if s[0] == ',' then RemoveCommas(s[1..])
    else [s[0]] + RemoveCommas(s[1..])
  }

  /** Removing commas from text that has none changes nothing. */
  lemma {:induction false} RemoveCommasNoComma(s: string)
    requires forall k :: 0 <= k < |s| ==> s[k] != ','
    ensures RemoveCommas(s) == s
  {
    if s != [] {
      RemoveCommasNoComma(s[1..]);
    }
  }

  lemma RemoveCommasDigits(s: string)
    requires AllDigits(s)
    ensures RemoveCommas(s) == s
  {
    RemoveCommasNoComma(s);
  }

  /** Comma removal works piece by piece: it distributes over concatenation. */
  lemma {:induction false} RemoveCommasAppend(a: string, b: string)
    ensures RemoveCommas(a + b) == RemoveCommas(a) + RemoveCommas(b)
    decreases |a|
  {
    if a == [] {
      assert a + b == b;
    } else {
      assert (a + b)[0] == a[0] && (a + b)[1..] == a[1..] + b;
      RemoveCommasAppend(a[1..], b);
    }
  }

  /**
   * `float(text.replace(",", ""))` for a token whose integer part (with its
   * commas) is `whole` and whose optional `.digits` part is `point`, exactly.
   */
  function NumberValue(whole: string, point: string): Decimal {
    var frac := if point == [] then [] else point[1..];
    Decimal(DigitsValue(RemoveCommas(whole) + frac), |frac|)
  }

  /**
   * The regex `\d+(?:,\d+)*(?:\.\d+)?` at `i`: the end of its match and the
   * number it denotes. It matches exactly where a digit is, and a match
   * never stops in front of a digit (every part is greedy).
   */
  function NumberAt(s: string, i: nat): (r: Option<(nat, Decimal)>)
    ensures r.Some? <==> i < |s| && IsDigit(s[i])
    ensures r.Some? ==> i < r.value.0 <= |s| && (r.value.0 == |s| || !IsDigit(s[r.value.0]))
  {
    if i < |s| && IsDigit(s[i]) then
      var a := DigitEnd(s, i);
      var b := CommaGroupsEnd(s, a);
      var c := FractionEnd(s, b);
      Some((c, NumberValue(s[i..b], s[b..c])))
    else None
  }

  /**
   * `s[i..c]` is read as a token of value `v` with its integer part ending
   * at `b`: digits and commas, every comma followed by a digit, no further
   * ",digits" group after `b`, then either nothing (and no ".digits" after
   * `b`) or a point and digits up to `c`.
   */
  ghost predicate TokenShape(s: string, i: nat, b: nat, c: nat, v: Decimal) {
    && i < b <= c <= |s|
    && (forall k :: i <= k < b ==> IsDigit(s[k]) || s[k] == ',')
    && (forall k :: i <= k < b && s[k] == ',' ==> k + 1 < b && IsDigit(s[k + 1]))
    && !(b + 1 < |s| && s[b] == ',' && IsDigit(s[b + 1]))
    && ((b == c && !(b + 1 < |s| && s[b] == '.' && IsDigit(s[b + 1]))
         && v == Decimal(DigitsValue(RemoveCommas(s[i..b])), 0))
        || (b + 1 < c && s[b] == '.' && (forall k :: b < k < c ==> IsDigit(s[k]))
            && v == Decimal(DigitsValue(RemoveCommas(s[i..b]) + s[b + 1..c]), c - b - 1)))
  }

  /**
   * What a number token means: its integer part up to `b` holds digits and
   * commas, every comma followed by a digit, an optional fraction follows as
   * a point and digits, and the value is the digits with the commas
   * removed, scaled by the fraction's length. The token is the greedy
   * match: it takes every further ",digits" group, and a ".digits"
   * fraction whenever one follows.
   */
  lemma NumberAtValue(s: string, i: nat)
    requires NumberAt(s, i).Some?
    ensures exists b: nat :: TokenShape(s, i, b, NumberAt(s, i).value.0, NumberAt(s, i).value.1)
  {
    var a := DigitEnd(s, i);
    var b := CommaGroupsEnd(s, a);
    var c := FractionEnd(s, b);
    ScannedShape(s, i, a, b, c);
  }

  /** The scanner's three greedy steps give a token of that shape. */
  lemma ScannedShape(s: string, i: nat, a: nat, b: nat, c: nat)
    requires i < |s| && IsDigit(s[i])
    requires a == DigitEnd(s, i) && b == CommaGroupsEnd(s, a) && c == FractionEnd(s, b)
    ensures TokenShape(s, i, b, c, NumberValue(s[i..b], s[b..c]))
  {
    IntegerPartShape(s, i, a, b);
    if b == c {
      NumberValueWhole(s[i..b]);
    } else {
      NumberValueFraction(s[i..b], s[b..c]);
    }
  }

  /** The integer part: digits, then ",digits" groups as long as there are any. */
  lemma IntegerPartShape(s: string, i: nat, a: nat, b: nat)
    requires i < |s| && IsDigit(s[i])
    requires a == DigitEnd(s, i) && b == CommaGroupsEnd(s, a)
    ensures i < b <= |s| && (b == |s| || !IsDigit(s[b]))
    ensures forall k :: i <= k < b ==> IsDigit(s[k]) || s[k] == ','
    ensures forall k :: i <= k < b && s[k] == ',' ==> k + 1 < b && IsDigit(s[k + 1])
    ensures !(b + 1 < |s| && s[b] == ',' && IsDigit(s[b + 1]))
  {
  }

  lemma NumberValueWhole(whole: string)
    ensures NumberValue(whole, []) == Decimal(DigitsValue(RemoveCommas(whole)), 0)
  {
    assert RemoveCommas(whole) + [] == RemoveCommas(whole);
  }

  lemma NumberValueFraction(whole: string, point: string)
    requires point != []
    ensures NumberValue(whole, point) == Decimal(DigitsValue(RemoveCommas(whole) + point[1..]), |point| - 1)
  {
  }

  /**
   * A token's shape fixes it: two readings from the same start that both
   * stop in front of a non-digit have the same end and the same value, so
   * `NumberAtValue` describes the one token the scanner returns.
   */
  lemma TokenShapeUnique(s: string, i: nat, b1: nat, c1: nat, v1: Decimal, b2: nat, c2: nat, v2: Decimal)
    requires TokenShape(s, i, b1, c1, v1) && (c1 == |s| || !IsDigit(s[c1]))
    requires TokenShape(s, i, b2, c2, v2) && (c2 == |s| || !IsDigit(s[c2]))
    ensures b1 == b2 && c1 == c2 && v1 == v2
  {
    IntegerPartStops(s, i, b1, c1, v1, b2);
    IntegerPartStops(s, i, b2, c2, v2, b1);
  }

  /** No reading's integer part stops short of a longer run of digits and comma groups. */
  lemma IntegerPartStops(s: string, i: nat, b: nat, c: nat, v: Decimal, b2: nat)
    requires TokenShape(s, i, b, c, v) && (c == |s| || !IsDigit(s[c]))
    requires b2 <= |s|
    requires forall k :: i <= k < b2 ==> IsDigit(s[k]) || s[k] == ','
    requires forall k :: i <= k < b2 && s[k] == ',' ==> k + 1 < b2 && IsDigit(s[k + 1])
    ensures b2 <= b
  {
    if b < b2 {
      assert false;
    }
  }

  /** A comma-grouped amount with paise: "1,234.50" is 1234.50. */
  lemma CommaAmount()
    ensures NumberAt("1,234.50", 0) == Some((8, Decimal(123450, 2)))
  {
    CommaAmountEnds();
    CommaAmountDigits();
  }

  lemma CommaAmountEnds()
    ensures NumberAt("1,234.50", 0) == Some((8, NumberValue("1,234", ".50")))
  {
    var s := "1,234.50";
    SpanEndIs(s, 0, 1, IsDigit);
    CommaAmountGroups();
    CommaAmountFraction();
    assert s[0..5] == "1,234" && s[5..8] == ".50";
  }

  lemma CommaAmountGroups()
    ensures CommaGroupsEnd("1,234.50", 1) == 5
  {
    var s := "1,234.50";
    SpanEndIs(s, 2, 5, IsDigit);
    assert CommaGroupsEnd(s, 5) == 5;
  }

  lemma CommaAmountFraction()
    ensures FractionEnd("1,234.50", 5) == 8
  {
    SpanEndIs("1,234.50", 6, 8, IsDigit);
  }

  lemma CommaAmountDigits()
    ensures NumberValue("1,234", ".50") == Decimal(123450, 2)
  {
    GroupedThousand();
    assert "1234" + ".50"[1..] == "123450";
    SixDigits();
  }

  lemma GroupedThousand()
    ensures RemoveCommas("1,234") == "1234"
  {
    assert "1,234" == "1," + "234";
    RemoveCommasAppend("1,", "234");
    RemoveCommasDigits("234");
  }

  lemma SixDigits()
    ensures DigitsValue("123450") == 123450
  {
    assert "123450"[..5] == "12345";
    assert "12345"[..4] == "1234";
    assert "1234"[..3] == "123";
    assert "123"[..2] == "12";
    assert "12"[..1] == "1";
    assert "1"[..0] == [];
  }

  /** A bare run of digits, not followed by a digit, comma or point, is one whole-number token. */
  lemma DigitRunToken(s: string, i: nat, e: nat)
    requires i < e <= |s| && AllDigits(s[i..e])
    requires e == |s| || (!IsDigit(s[e]) && s[e] != ',' && s[e] != '.')
    ensures NumberAt(s, i) == Some((e, Decimal(DigitsValue(s[i..e]), 0)))
  {
    SpanEndIs(s, i, e, IsDigit);
    RemoveCommasDigits(s[i..e]);
    assert s[i..e] + [] == s[i..e];
  }

  /** An amount as a statement prints it: whole digits, then a point and the fraction digits when there are any. */
  function AmountText(whole: string, frac: string): string {
    if frac == [] then whole else whole + "." + frac
  }

  /** The exact value of `AmountText(whole, frac)`. */
  function AmountValue(whole: string, frac: string): Decimal {
    Decimal(DigitsValue(whole + frac), |frac|)
  }

  /**
   * A printed amount followed by a space or the end of the text is read as
   * one token, whose value is exactly the amount printed.
   */
  lemma AmountTokenAt(s: string, i: nat, whole: string, frac: string)
    requires whole != [] && AllDigits(whole) && AllDigits(frac)
    requires var t := AmountText(whole, frac);
      i + |t| <= |s| && s[i..i + |t|] == t && (i + |t| == |s| || s[i + |t|] == ' ')
    ensures NumberAt(s, i) == Some((i + |AmountText(whole, frac)|, AmountValue(whole, frac)))
  {
    var a := i + |whole|;
    if frac == [] {
      assert whole + frac == whole;
      DigitRunToken(s, i, a);
    } else {
      var c := a + 1 + |frac|;
      SplitAt(s, i, a, c, whole, "." + frac);
      SplitAt(s, a, a + 1, c, ".", frac);
      FractionToken(s, i, a, c, whole, frac);
    }
  }

  /** Whole digits from `i` to `a`, a point, and fraction digits up to `c`, where a space or the end is, make one token. */
  lemma FractionToken(s: string, i: nat, a: nat, c: nat, whole: string, frac: string)
    requires whole != [] && AllDigits(whole) && frac != [] && AllDigits(frac)
    requires a == i + |whole| && c == a + 1 + |frac| && c <= |s|
    requires s[i..a] == whole && s[a..a + 1] == "." && s[a + 1..c] == frac
    requires c == |s| || s[c] == ' '
    ensures NumberAt(s, i) == Some((c, AmountValue(whole, frac)))
  {
    assert s[a] == s[a..a + 1][0];
    assert DigitEnd(s, i) == a by {
      assert forall k :: i <= k < a ==> s[k] == whole[k - i];
      SpanEndIs(s, i, a, IsDigit);
    }
    assert forall k :: a + 1 <= k < c ==> IsDigit(s[k]) by {
      assert forall k :: a + 1 <= k < c ==> s[k] == frac[k - a - 1];
    }
    PointDigits(s, a, c);
    RemoveCommasDigits(whole);
    assert s[a..c] == s[a..a + 1] + s[a + 1..c];
  }

  /** A point followed by digits up to `c`, where a space or the end is: no comma groups, and the fraction ends at `c`. */
  lemma PointDigits(s: string, a: nat, c: nat)
    requires a + 1 < c <= |s| && s[a] == '.'
    requires forall k :: a + 1 <= k < c ==> IsDigit(s[k])
    requires c == |s| || s[c] == ' '
    ensures CommaGroupsEnd(s, a) == a && FractionEnd(s, a) == c
  {
    SpanEndIs(s, a + 1, c, IsDigit);
  }

  /** `re.findall(r"\d+(?:,\d+)*(?:\.\d+)?", s)` from position `i` on, as numbers. */
  function TokensFrom(s: string, i: nat): seq<Decimal>
    decreases |s| - i
  {
    if i >= |s| then []
    else
      match NumberAt(s, i)
      case Some((e, v)) => [v] + TokensFrom(s, e)
      case None => TokensFrom(s, i + 1)
  }

  /** `nums` in the parser: every numeric token of the text, in order of appearance. */
  function Tokens(s: string): seq<Decimal> {
    TokensFrom(s, 0)
  }

  /** A token that starts at `i` and ends at `e` heads the tokens from `i` on. */
  lemma TokenStep(s: string, i: nat, e: nat, v: Decimal)
    requires NumberAt(s, i) == Some((e, v))
    ensures TokensFrom(s, i) == [v] + TokensFrom(s, e)
  {
  }

  /** Text without digits holds no token, so the scan passes over it. */
  lemma {:induction false} TokensSkip(s: string, i: nat, j: nat)
    requires i <= j <= |s|
    requires forall k :: i <= k < j ==> !IsDigit(s[k])
    ensures TokensFrom(s, i) == TokensFrom(s, j)
    decreases j - i
  {
    if i < j {
      assert NumberAt(s, i).None?;
      TokensSkip(s, i + 1, j);
    }
  }

  function Dist(a: int, b: int): nat {
    if a >= b then a - b else b - a
  }

  /**
   * `round(amount, 2)`, in hundredths: the nearest whole number of cents,
   * and the even one when two are equally near.
   */
  function Round2(d: Decimal): (cents: nat)
    ensures 2 * Dist(cents * Pow10(d.scale), 100 * d.units) <= Pow10(d.scale)
    ensures 2 * Dist(cents * Pow10(d.scale), 100 * d.units) == Pow10(d.scale) ==> cents % 2 == 0
    ensures d.scale <= 2 ==> cents * Pow10(d.scale) == 100 * d.units
  {
    if d.scale <= 2 then
      var cents := d.units * Pow10(2 - d.scale);
      RoundExact(d, cents);
      cents
    else
      RoundStep(d);
      HalfEvenDiv(d.units, Pow10(d.scale - 2))
  }

  /** `n / p` rounded to the nearest whole number, ties to even. */
  function HalfEvenDiv(n: nat, p: nat): nat
    requires p > 0
  {
    var q, rem := n / p, n % p;
    if 2 * rem > p || (2 * rem == p && q % 2 == 1) then q + 1 else q
  }

  lemma RoundExact(d: Decimal, cents: nat)
    requires d.scale <= 2 && cents == d.units * Pow10(2 - d.scale)
    ensures cents * Pow10(d.scale) == 100 * d.units
  {
    Pow10Add(2 - d.scale, d.scale);
    assert Pow10(2) == 100;
    var P, Q := Pow10(d.scale), Pow10(2 - d.scale);
    assert Q * P == 100;
    calc {
      cents * P;
      (d.units * Q) * P;
      d.units * (Q * P);
      d.units * 100;
    }
  }

  lemma AtLeastOnce(c: nat, p: nat)
    requires c >= 1
    ensures c * p >= p
    ensures c >= 2 ==> c * p >= 2 * p
  {
  }

  lemma RoundStep(d: Decimal)
    requires d.scale > 2
    ensures var cents := HalfEvenDiv(d.units, Pow10(d.scale - 2));
      2 * Dist(cents * Pow10(d.scale), 100 * d.units) <= Pow10(d.scale)
    ensures var cents := HalfEvenDiv(d.units, Pow10(d.scale - 2));
      2 * Dist(cents * Pow10(d.scale), 100 * d.units) == Pow10(d.scale) ==> cents % 2 == 0
  {
    var p := Pow10(d.scale - 2);
    var q, rem := d.units / p, d.units % p;
    var cents := HalfEvenDiv(d.units, p);
    RoundStepFor(d, p, q, rem, cents);
  }

  lemma RoundStepFor(d: Decimal, p: nat, q: nat, rem: nat, cents: nat)
    requires d.scale > 2 && p == Pow10(d.scale - 2)
    requires q == d.units / p && rem == d.units % p
    requires cents == if 2 * rem > p || (2 * rem == p && q % 2 == 1) then q + 1 else q
    ensures 2 * Dist(cents * Pow10(d.scale), 100 * d.units) <= Pow10(d.scale)
    ensures 2 * Dist(cents * Pow10(d.scale), 100 * d.units) == Pow10(d.scale) ==> cents % 2 == 0
  {
    Pow10Add(d.scale - 2, 2);
    assert Pow10(2) == 100;
    HalfEvenCents(d.units, p, q, rem, cents, Pow10(d.scale), q * p, cents * Pow10(d.scale));
  }

  /**
   * Half-even rounding of `u / p` in plain arithmetic: `cents` hundredths of
   * a unit of size `P = 100 * p` are within half a unit of `u`, and even on a tie.
   */
  lemma HalfEvenCents(u: nat, p: nat, q: nat, rem: nat, cents: nat, P: nat, qp: nat, cp: nat)
    requires p >= 1 && rem < p && P == p * 100 && qp == q * p && u == qp + rem
    requires cents == if 2 * rem > p || (2 * rem == p && q % 2 == 1) then q + 1 else q
    requires cp == cents * P
    ensures 2 * Dist(cp, 100 * u) <= P
    ensures 2 * Dist(cp, 100 * u) == P ==> cents % 2 == 0
  {
    if cents == q {
      assert cp == 100 * qp;
    } else {
      assert cp == q * P + P;
      assert cp == 100 * qp + 100 * p;
    }
  }

  /**
   * An amount rounds to 0.00, and is then dropped from the output, exactly
   * when it is at most half a cent.
   */
  lemma RoundsToZero(d: Decimal)
    ensures Round2(d) == 0 <==> 200 * d.units <= Pow10(d.scale)
  {
    var c := Round2(d);
    ZeroCents(c, d.units, Pow10(d.scale), c * Pow10(d.scale));
  }

  /** In plain arithmetic: cents within half a unit `p` of `u`, even on a tie, are zero exactly when `u` is at most half a cent. */
  lemma ZeroCents(c: nat, u: nat, p: nat, cp: nat)
    requires p >= 1 && cp == c * p
    requires 2 * Dist(cp, 100 * u) <= p
    requires 2 * Dist(cp, 100 * u) == p ==> c % 2 == 0
    ensures c == 0 <==> 200 * u <= p
  {
    if c >= 1 {
      AtLeastOnce(c, p);
    }
  }
}
