/** Numbers in JSON notation: what is read is what they denote, without rounding. */
module JsonNumeral {
  import opened Wrappers
  import opened Text
  import opened Json
  import opened JsonParse

  /** A number: `whole`, perhaps a fraction, perhaps an exponent. */
  datatype Numeral = Numeral(negative: bool, whole: string, fraction: string, exponent: Option<Power>)

  datatype Power = Power(mark: char, sign: string, digits: string)

  predicate PowerOk(p: Power) {
    p.mark in {'e', 'E'} && p.sign in {"", "+", "-"} && p.digits != "" && AllDigits(p.digits)
  }

  /** At most the 63 characters that the parser copies. */
  predicate NumeralOk(n: Numeral) {
    && n.whole != "" && AllDigits(n.whole) && AllDigits(n.fraction)
    && (n.exponent.Some? ==> PowerOk(n.exponent.value)) && |NumeralText(n)| <= 63
  }

  function PowerText(p: Option<Power>): string {
    match p
    case None => ""
    case Some(Power(mark, sign, digits)) => [mark] + (sign + digits)
  }

  function FractionText(fraction: string): string {
    if fraction == "" then "" else "." + fraction
  }

  function NumeralText(n: Numeral): string {
    (if n.negative then "-" else "") + (n.whole + (FractionText(n.fraction) + PowerText(n.exponent)))
  }

  function NumeralValue(n: Numeral): real
    requires NumeralOk(n)
  {
    var magnitude := Nat(n.whole) as real + Nat(n.fraction) as real / Pow10(|n.fraction|) as real;
    var signed := if n.negative then -magnitude else magnitude;
    match n.exponent
    case None => signed
    case Some(p) =>
      if p.sign == "-" then signed / Pow10(Nat(p.digits)) as real else signed * Pow10(Nat(p.digits)) as real
  }

  // ---------------------------------------------------------------- digits and powers of ten

  lemma {:induction false} DigitRunIs(digits: string, rest: string)
    requires AllDigits(digits) && (rest == "" || !IsDigit(rest[0]))
    ensures DigitRun(digits + rest) == |digits|
  {
    if digits == "" {
      assert digits + rest == rest;
    } else {
      assert (digits + rest)[1..] == digits[1..] + rest;
      DigitRunIs(digits[1..], rest);
    }
  }

  /** The number a run of digits followed by another stands for. */
  lemma {:induction false} NatConcat(a: string, b: string)
    requires AllDigits(a) && AllDigits(b)
    ensures AllDigits(a + b) && Nat(a + b) == Nat(a) * Pow10(|b|) + Nat(b)
    decreases |b|
  {
    if b == "" {
      assert a + b == a;
    } else {
      var init, d := b[..|b| - 1], DigitValue(b[|b| - 1]);
      NatConcat(a, init);
      assert (a + b)[..|a + b| - 1] == a + init;
      assert Nat(a + b) == 10 * Nat(a + init) + d;
      Tenfold(Nat(a), Pow10(|init|), Nat(init), d);
    }
  }

  lemma Tenfold(a: nat, p: nat, b: nat, d: nat)
    ensures 10 * (a * p + b) + d == a * (10 * p) + (10 * b + d)
  {
  }

  /** The power of ten with an exponent of either sign. */
  function Power10(e: int): (r: real)
    ensures r > 0.0
  {
    if e >= 0 then Pow10(e) as real else 1.0 / Pow10(-e) as real
  }

  lemma Power10Step(e: int)
    ensures Power10(e + 1) == 10.0 * Power10(e)
  {
    if e < 0 {
      var p := Pow10(-(e + 1)) as real;
      assert Pow10(-e) == 10 * Pow10(-(e + 1));
      assert 10.0 * (1.0 / (10.0 * p)) == 1.0 / p;
    }
  }

  lemma {:induction false} ScaleIs(x: real, e: int)
    ensures Scale(x, e) == x * Power10(e)
    decreases if e < 0 then -e else e
  {
    hide Power10;
    if e > 0 {
      ScaleIs(10.0 * x, e - 1);
      Power10Step(e - 1);
      Assoc(x, Power10(e - 1));
    } else if e < 0 {
      ScaleIs(x / 10.0, e + 1);
      Power10Step(e);
      Tenth(x, Power10(e));
    } else {
      One();
    }
  }

  lemma One()
    ensures Power10(0) == 1.0
  {
  }

  lemma Assoc(x: real, p: real)
    ensures 10.0 * x * p == x * (10.0 * p)
  {
  }

  lemma Tenth(x: real, p: real)
    ensures x / 10.0 * (10.0 * p) == x * p
  {
    var y := x / 10.0;
    assert x == 10.0 * y;
  }

  lemma {:induction false} Power10Add(a: int, b: nat)
    ensures Power10(a + b) == Power10(a) * Power10(b)
    decreases b
  {
    hide Power10;
    if b == 0 {
      One();
    } else {
      Power10Add(a, b - 1);
      Power10Step(a + b - 1);
      Power10Step(b - 1);
      Assoc(Power10(a), Power10(b - 1));
    }
  }

  /** Moving the point: the digits of the fraction count as many tenths. */
  lemma ScaleFraction(whole: nat, fraction: nat, f: nat, e: int)
    ensures Scale((whole * Pow10(f) + fraction) as real, e - f) ==
            (whole as real + fraction as real / Pow10(f) as real) * Power10(e)
  {
    hide Scale, Power10, Pow10;
    ScaleIs((whole * Pow10(f) + fraction) as real, e - f);
    Power10Add(e - f, f);
    PowerOfNat(f);
    Product(whole, Pow10(f), fraction);
    Cancel(whole as real, fraction as real, Pow10(f) as real, Power10(e - f));
  }

  lemma PowerOfNat(n: nat)
    ensures Power10(n) == Pow10(n) as real
  {
  }

  lemma Product(a: nat, b: nat, c: nat)
    ensures (a * b + c) as real == a as real * b as real + c as real
  {
  }

  lemma Cancel(w: real, f: real, p: real, q: real)
    requires p > 0.0
    ensures (w * p + f) * q == (w + f / p) * (q * p)
  {
    var y := f / p;
    assert f == y * p;
    assert w * p + y * p == (w + y) * p;
    assert (w + y) * p * q == (w + y) * (q * p);
  }

  function ExponentValue(p: Option<Power>): int
    requires p.Some? ==> PowerOk(p.value)
  {
    match p
    case None => 0
    case Some(Power(_, sign, digits)) =>
      var k: int := Nat(digits);
      if sign == "-" then -k else k
  }

  lemma ExponentIs(p: Option<Power>)
    requires p.Some? ==> PowerOk(p.value)
    ensures Exponent(PowerText(p)) == (|PowerText(p)|, ExponentValue(p))
  {
    hide DigitRun, Nat;
    if p.Some? {
      var sign, digits, t := p.value.sign, p.value.digits, PowerText(p);
      assert IsDigit(digits[0]);
      DigitRunIs(digits, "");
      assert digits + "" == digits && digits[..|digits|] == digits;
      assert t[1..] == sign + digits;
      if sign == "" {
        assert t[1..] == digits && t[1] == digits[0];
      } else {
        assert t[2..] == digits && t[1] == sign[0];
      }
    }
  }

  /** The value with the sign and the exponent put together. */
  lemma NumeralValueIs(n: Numeral)
    requires NumeralOk(n)
    ensures var x := Nat(n.whole) as real + Nat(n.fraction) as real / Pow10(|n.fraction|) as real;
      NumeralValue(n) == (if n.negative then -x else x) * Power10(ExponentValue(n.exponent))
  {
    hide Nat, Pow10, NumeralText, Power10;
    One();
    match n.exponent
    case None =>
    case Some(p) =>
      var x := Nat(n.whole) as real + Nat(n.fraction) as real / Pow10(|n.fraction|) as real;
      PowerOfNat(Nat(p.digits));
      PowerOfNegative(if n.negative then -x else x, Nat(p.digits));
  }

  lemma PowerOfNegative(x: real, k: int)
    requires k >= 0
    ensures x * Power10(-k) == x / Pow10(k) as real
  {
    Reciprocal(x, Pow10(k) as real);
  }

  lemma Reciprocal(x: real, p: real)
    requires p > 0.0
    ensures x * (1.0 / p) == x / p
  {
    var y := x / p;
    assert x == y * p;
    assert y * p * (1.0 / p) == y * (p * (1.0 / p));
    assert p * (1.0 / p) == 1.0;
  }

  lemma Parts(a: string, b: string, c: string, d: string)
    ensures var t := a + (b + (c + d));
      t[|a|..] == b + (c + d) && t[|a| + |b|..] == c + d && t[|a| + |b| + |c|..] == d
  {
  }

  /** Where the parts of a number stand. */
  lemma NumeralLayout(n: Numeral)
    requires NumeralOk(n)
    ensures var t, sign, rest := NumeralText(n), if n.negative then 1 else 0, FractionText(n.fraction) + PowerText(n.exponent);
      && |t| == sign + |n.whole| + |rest| && |t| > 0 && (t[0] == '-' <==> n.negative) && t[0] != '+'
      && t[sign..] == n.whole + rest && t[sign + |n.whole|..] == rest
      && t[sign + |n.whole| + |FractionText(n.fraction)|..] == PowerText(n.exponent)
  {
    hide FractionText, PowerText;
    var minus := if n.negative then "-" else "";
    assert IsDigit(n.whole[0]);
    Parts(minus, n.whole, FractionText(n.fraction), PowerText(n.exponent));
  }

  lemma DigitsOf(digits: string, rest: string)
    requires AllDigits(digits) && (rest == "" || !IsDigit(rest[0]))
    ensures DigitRun(digits + rest) == |digits| && (digits + rest)[..|digits|] == digits
  {
    DigitRunIs(digits, rest);
  }

  lemma PowerStart(p: Option<Power>)
    requires p.Some? ==> PowerOk(p.value)
    ensures PowerText(p) == "" || (!IsDigit(PowerText(p)[0]) && PowerText(p)[0] != '.')
  {
  }

  /** The digits behind the point, if there is one. */
  lemma FractionReads(n: Numeral)
    requires NumeralOk(n)
    ensures var rest, point := FractionText(n.fraction) + PowerText(n.exponent), |FractionText(n.fraction)|;
      && (rest == "" || !IsDigit(rest[0])) && (rest != "" && rest[0] == '.' <==> n.fraction != "")
      && rest[point..] == PowerText(n.exponent)
      && (n.fraction != "" ==>
            && point == 1 + |n.fraction| && DigitRun(rest[1..]) == |n.fraction|
            && rest[1..][..|n.fraction|] == n.fraction)
  {
    hide DigitRun, PowerText, NumeralText;
    var rest := FractionText(n.fraction) + PowerText(n.exponent);
    PowerStart(n.exponent);
    if n.fraction != "" {
      assert rest[1..] == n.fraction + PowerText(n.exponent);
      DigitsOf(n.fraction, PowerText(n.exponent));
    }
  }

  /** A point and these digits stand at `p`, up to `q`, or there are none. */
  predicate PointAt(t: string, p: nat, fraction: string, q: nat)
    requires p <= |t|
  {
    if p < |t| && t[p] == '.'
    then q == p + 1 + |fraction| && DigitRun(t[p + 1..]) == |fraction| && t[p + 1..][..|fraction|] == fraction
    else q == p && fraction == ""
  }

  /** `strtod` on a text whose parts are known; `q` is behind the fraction. */
  lemma StrtodIs(t: string, sign: nat, whole: string, fraction: string, q: nat, e: int)
    requires AllDigits(whole) && AllDigits(fraction) && whole != "" && AllDigits(whole + fraction)
    requires t != "" && sign == (if t[0] == '-' || t[0] == '+' then 1 else 0) && sign + |whole| <= q <= |t|
    requires DigitRun(t[sign..]) == |whole| && t[sign..][..|whole|] == whole
    requires PointAt(t, sign + |whole|, fraction, q)
    requires Exponent(t[q..]) == (|t| - q, e)
    ensures var x := Nat(whole + fraction) as real;
      Strtod(t) == (|t|, Scale(if sign == 1 && t[0] == '-' then -x else x, e - |fraction|))
  {
    hide DigitRun, Nat, Exponent, Scale;
    assert whole + "" == whole;
  }

  /** What `strtod` makes of a number: all its digits, scaled. */
  lemma NumeralDigits(n: Numeral)
    requires NumeralOk(n)
    ensures AllDigits(n.whole + n.fraction)
    ensures var x := Nat(n.whole + n.fraction) as real;
      Strtod(NumeralText(n)) ==
        (|NumeralText(n)|, Scale(if n.negative then -x else x, ExponentValue(n.exponent) - |n.fraction|))
  {
    hide Strtod, DigitRun, Nat, Exponent, Scale, NumeralText, PowerText, FractionText, ExponentValue, AllDigits, PointAt;
    var t, sign := NumeralText(n), if n.negative then 1 else 0;
    NatConcat(n.whole, n.fraction);
    WholeReads(n);
    PowerReads(n);
    StrtodIs(t, sign, n.whole, n.fraction, sign + |n.whole| + |FractionText(n.fraction)|, ExponentValue(n.exponent));
  }

  lemma WholeReads(n: Numeral)
    requires NumeralOk(n)
    ensures var t, sign := NumeralText(n), if n.negative then 1 else 0;
      && t != "" && (t[0] == '-' <==> n.negative) && t[0] != '+' && sign + |n.whole| <= |t|
      && DigitRun(t[sign..]) == |n.whole| && t[sign..][..|n.whole|] == n.whole
  {
    hide DigitRun, NumeralText, PowerText, FractionText, AllDigits;
    NumeralLayout(n);
    FractionReads(n);
    DigitsOf(n.whole, FractionText(n.fraction) + PowerText(n.exponent));
  }

  lemma PowerReads(n: Numeral)
    requires NumeralOk(n)
    ensures var t, p := NumeralText(n), (if n.negative then 1 else 0) + |n.whole|;
            var q := p + |FractionText(n.fraction)|;
      && p <= q <= |t| && PointAt(t, p, n.fraction, q)
      && Exponent(t[q..]) == (|t| - q, ExponentValue(n.exponent))
  {
    hide Exponent, NumeralText, PowerText, FractionText, ExponentValue, AllDigits, PointAt;
    NumeralLayout(n);
    FractionStands(n, NumeralText(n), (if n.negative then 1 else 0) + |n.whole|);
    ExponentIs(n.exponent);
  }

  lemma FractionStands(n: Numeral, t: string, p: nat)
    requires NumeralOk(n) && p <= |t| && t[p..] == FractionText(n.fraction) + PowerText(n.exponent)
    ensures PointAt(t, p, n.fraction, p + |FractionText(n.fraction)|)
  {
    hide DigitRun, PowerText, FractionText, NumeralOk;
    var rest := FractionText(n.fraction) + PowerText(n.exponent);
    FractionReads(n);
    NoFraction(n.fraction);
    if rest != "" { Behind(t, p, rest); }
  }

  lemma Behind(t: string, p: nat, rest: string)
    requires p <= |t| && t[p..] == rest && rest != ""
    ensures p < |t| && t[p] == rest[0] && t[p + 1..] == rest[1..]
  {
  }

  lemma NoFraction(fraction: string)
    ensures |FractionText(fraction)| == if fraction == "" then 0 else 1 + |fraction|
  {
  }

  /** A number in any notation reads as its value, to its last character. */
  lemma NumeralReads(n: Numeral)
    requires NumeralOk(n)
    ensures Strtod(NumeralText(n)) == (|NumeralText(n)|, NumeralValue(n))
  {
    hide Strtod, Nat, Scale, NumeralText, NumeralValue, Pow10, Power10, ExponentValue;
    var f, e := |n.fraction|, ExponentValue(n.exponent);
    NumeralDigits(n);
    NatConcat(n.whole, n.fraction);
    ScaleFraction(Nat(n.whole), Nat(n.fraction), f, e);
    NumeralValueIs(n);
    var x, y := Nat(n.whole + n.fraction) as real, Nat(n.whole) as real + Nat(n.fraction) as real / Pow10(f) as real;
    assert Scale(x, e - f) == y * Power10(e);
    if n.negative {
      ScaleNegated(x, e - f);
      Negated(y, Power10(e));
      assert Scale(-x, e - f) == -(y * Power10(e));
      assert NumeralValue(n) == -y * Power10(e);
    } else {
      assert NumeralValue(n) == y * Power10(e);
    }
  }

  lemma ScaleNegated(x: real, e: int)
    ensures Scale(-x, e) == -Scale(x, e)
  {
    hide Scale, Power10;
    ScaleIs(x, e);
    ScaleIs(-x, e);
    Negated(x, Power10(e));
  }

  lemma Negated(x: real, p: real)
    ensures -x * p == -(x * p)
  {
  }

  lemma NumeralChars(n: Numeral)
    requires NumeralOk(n)
    ensures var t := NumeralText(n);
      && t != "" && (t[0] == '-' || IsDigit(t[0])) && forall i :: 0 <= i < |t| ==> IsNumberChar(t[i])
  {
    var t := NumeralText(n);
    assert IsDigit(n.whole[0]);
    NumberChars(n.whole, FractionText(n.fraction) + PowerText(n.exponent));
    NumberChars(FractionText(n.fraction), PowerText(n.exponent));
  }

  lemma NumberChars(a: string, b: string)
    requires forall i :: 0 <= i < |a| ==> IsNumberChar(a[i])
    requires forall i :: 0 <= i < |b| ==> IsNumberChar(b[i])
    ensures forall i :: 0 <= i < |a + b| ==> IsNumberChar((a + b)[i])
  {
  }

  /** A number in any notation of at most 63 characters parses to its value. */
  lemma NumeralParses(s: string, off: nat, n: Numeral)
    requires Terminated(s) && NumeralOk(n) && At(s, off, NumeralText(n))
    requires off + |NumeralText(n)| < |s| && !IsNumberChar(s[off + |NumeralText(n)|])
    ensures ParseNumber(s, off) == Ok(Number(NumeralValue(n)), off + |NumeralText(n)|)
  {
    hide Strtod, NumberRun, NumeralText, NumeralValue;
    var t := NumeralText(n);
    NumeralChars(n);
    assert s[off..off + |t|] == t;
    NumberRunIs(s, off, 63, |t|);
    NumeralReads(n);
  }

  /** A number of more than 63 digits is cut: the first 63 are read as a number of their own. */
  lemma LongNumeral(t: string)
    requires AllDigits(t) && |t| > 63
    ensures NulFree(t) && Parse(t) == Some(Number(Nat(t[..63]) as real))
  {
    hide Strtod, NumberRun, Nat, At;
    var s, n := t + [NUL], Numeral(false, t[..63], "", None);
    assert IsDigit(t[0]);
    assert NumeralText(n) == t[..63];
    NumberRunIs(s, 0, 63, 63);
    assert s[0..63] == t[..63];
    NumeralReads(n);
    NumeralWhole(n);
    assert SkipSpace(s, 0) == 0;
    OtherMark(s);
  }

  lemma NumeralWhole(n: Numeral)
    requires NumeralOk(n) && !n.negative && n.fraction == "" && n.exponent == None
    ensures NumeralValue(n) == Nat(n.whole) as real
  {
    hide NumeralText;
    assert Nat("") == 0 && Pow10(0) == 1;
  }

  lemma OtherMark(s: string)
    requires s != "" && IsDigit(s[0])
    ensures !At(s, 0, BOM)
  {
    assert BOM[0] > '9';
  }
}
